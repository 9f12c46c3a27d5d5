/** Canonical labels: every uniqueness check runs on the output of this function. */
module Normalize {
  import opened Core
  import opened Text

  datatype LabelError = EmptyLabel | TooLong | EdgeHyphen | BadRune | DotsInLabel

  datatype Result = Ok(name: string) | Err(error: LabelError)

  /** The two library mappings: compatibility folding of a string, and the encoding of a non-ASCII label. */
  datatype Unicode = Unicode(nfkc: string -> string, idna: string -> Option<string>)

  predicate IsAscii(s: string) {
    forall i :: 0 <= i < |s| ==> s[i] < '\U{80}'
  }

  /** All that is assumed of the folding: it leaves ASCII alone. Nothing is assumed of the encoding. */
  ghost predicate Folds(u: Unicode) {
    forall s :: IsAscii(s) ==> u.nfkc(s) == s
  }

  predicate LdhChar(c: char) {
    'a' <= c <= 'z' || '0' <= c <= '9' || c == '-'
  }

  predicate AllLdh(p: string) {
    forall i :: 0 <= i < |p| ==> LdhChar(p[i])
  }

  /** A lower-case letter-digit-hyphen label of 1 to 63 characters without edge hyphens. */
  predicate Ldh(p: string) {
    0 < |p| <= 63 && p[0] != '-' && p[|p| - 1] != '-' && AllLdh(p)
  }

  // ---- splitting at dots

  function Split(s: string): (parts: seq<string>)
    ensures parts != []
  {
    if s == [] then [""]
    else if s[0] == '.' then [""] + Split(s[1..])
    else var rest := Split(s[1..]); [[s[0]] + rest[0]] + rest[1..]
  }

  function Join(parts: seq<string>): string {
    if parts == [] then "" else if |parts| == 1 then parts[0] else parts[0] + "." + Join(parts[1..])
  }

  lemma JoinDot(rest: seq<string>)
    requires rest != []
    ensures Join([""] + rest) == "." + Join(rest)
  {
    assert ([""] + rest)[1..] == rest;
  }

  lemma JoinMore(parts: seq<string>)
    requires |parts| > 1
    ensures Join(parts) == parts[0] + ("." + Join(parts[1..]))
  {
    assert parts[0] + "." + Join(parts[1..]) == parts[0] + ("." + Join(parts[1..]));
  }

  lemma JoinOnly(part: string)
    ensures Join([part]) == part
  {
  }

  lemma JoinHead(c: char, rest: seq<string>)
    requires rest != []
    ensures Join([[c] + rest[0]] + rest[1..]) == [c] + Join(rest)
  {
    hide Join;
    var parts := [[c] + rest[0]] + rest[1..];
    assert parts[1..] == rest[1..] && parts[0] == [c] + rest[0];
    if |rest| > 1 {
      JoinMore(parts);
      JoinMore(rest);
      var more := "." + Join(rest[1..]);
      assert ([c] + rest[0]) + more == [c] + (rest[0] + more);
    } else {
      JoinOnly(parts[0]);
      JoinOnly(rest[0]);
      assert parts == [parts[0]] && rest == [rest[0]];
    }
  }

  lemma {:induction false} JoinSplit(s: string)
    ensures Join(Split(s)) == s
  {
    hide Join;
    if s == [] {
      JoinNone();
    } else {
      JoinSplit(s[1..]);
      JoinDot(Split(s[1..]));
      JoinHead(s[0], Split(s[1..]));
    }
  }

  lemma JoinNone()
    ensures Join(Split("")) == ""
  {
  }

  lemma {:induction false} SplitPlain(p: string)
    requires '.' !in p
    ensures Split(p) == [p]
  {
    if p != [] {
      SplitPlain(p[1..]);
      assert [p[0]] + p[1..] == p;
    }
  }

  lemma {:induction false} SplitHead(p: string, tail: string)
    requires '.' !in p
    ensures Split(p + "." + tail) == [p] + Split(tail)
  {
    var s := p + "." + tail;
    if p == [] {
      assert s[1..] == tail;
    } else {
      assert s[1..] == p[1..] + "." + tail;
      SplitHead(p[1..], tail);
      assert Split(s) == [[s[0]] + p[1..]] + Split(tail);
      assert [s[0]] + p[1..] == p;
    }
  }

  lemma {:induction false} SplitJoin(parts: seq<string>)
    requires parts != [] && forall i :: 0 <= i < |parts| ==> '.' !in parts[i]
    ensures Split(Join(parts)) == parts
  {
    if |parts| == 1 {
      SplitPlain(parts[0]);
    } else {
      SplitJoin(parts[1..]);
      SplitHead(parts[0], Join(parts[1..]));
      assert parts == [parts[0]] + parts[1..];
    }
  }

  // ---- the function

  function NormalPart(p: string, u: Unicode): Result {
    if p == "" then Err(EmptyLabel)
    else
      var enc := if IsAscii(p) then Some(p) else u.idna(p);
      if enc == None then Err(BadRune)
      else if |enc.value| > 63 then Err(TooLong)
      else if HasPrefix(enc.value, "-") || HasSuffix(enc.value, "-") then Err(EdgeHyphen)
      else if AllLdh(enc.value) then Ok(enc.value)
      else Err(BadRune)
  }

  function NormalParts(parts: seq<string>, u: Unicode): (r: (seq<string>, Option<LabelError>))
    ensures |r.0| == if r.1 == None then |parts| else 0
  {
    if parts == [] then ([], None)
    else match NormalPart(parts[0], u)
      case Err(e) => ([], Some(e))
      case Ok(p) =>
        var rest := NormalParts(parts[1..], u);
        if rest.1.Some? then ([], rest.1) else ([p] + rest.0, None)
  }

  function Normal(raw: string, kind: Kind, u: Unicode): Result {
    var s := TrimSpace(raw);
    if s == "" then Err(EmptyLabel)
    else if s == "@" then Ok("@")
    else if HasPrefix(s, "*.") && kind != Platform then Err(DotsInLabel)
    else
      var body := Lower(u.nfkc(TrimPrefix(s, "*.")));
      if '.' in body && kind != Platform then Err(DotsInLabel)
      else
        var parts := NormalParts(Split(body), u);
        if parts.1.Some? then Err(parts.1.value)
        else Ok((if HasPrefix(s, "*.") then "*." else "") + Join(parts.0))
  }

  function Body(raw: string, u: Unicode): string {
    Lower(u.nfkc(TrimPrefix(TrimSpace(raw), "*.")))
  }

  /** The guard the code lacks: emptiness is tested before the encoding, not after it. */
  predicate EncodesEmpty(raw: string, u: Unicode) {
    TrimSpace(raw) != "@" && exists p <- Split(Body(raw, u)) :: !IsAscii(p) && u.idna(p) == Some("")
  }

  function Starred(star: bool, parts: seq<string>): string {
    (if star then "*." else "") + Join(parts)
  }

  ghost predicate LdhParts(parts: seq<string>) {
    parts != [] && forall i :: 0 <= i < |parts| ==> Ldh(parts[i])
  }

  /** What an accepted label should look like: "@", or dot-joined LDH labels, starred for the platform only. */
  ghost predicate Canonical(name: string, kind: Kind) {
    name == "@"
    || exists parts: seq<string>, star: bool ::
         LdhParts(parts) && (kind != Platform ==> |parts| == 1 && !star) && name == Starred(star, parts)
  }

  lemma NormalPartShape(p: string, u: Unicode)
    requires NormalPart(p, u).Ok?
    ensures NormalPart(p, u).name == "" <==> !IsAscii(p) && u.idna(p) == Some("")
    ensures NormalPart(p, u).name != "" ==> Ldh(NormalPart(p, u).name)
  {
    var q := NormalPart(p, u).name;
    if q != "" {
      assert q[|q| - 1..] == [q[|q| - 1]] && q[..1] == [q[0]];
    }
  }

  lemma {:induction false} NormalPartsShape(parts: seq<string>, u: Unicode)
    requires NormalParts(parts, u).1 == None
    ensures var out := NormalParts(parts, u).0;
            && (forall i :: 0 <= i < |out| ==> out[i] == "" || Ldh(out[i]))
            && ("" in out <==> exists p <- parts :: !IsAscii(p) && u.idna(p) == Some(""))
  {
    if parts != [] {
      NormalPartsShape(parts[1..], u);
      NormalPartShape(parts[0], u);
      assert parts == [parts[0]] + parts[1..];
    }
  }

  lemma {:induction false} NormalPartsFixed(parts: seq<string>, u: Unicode)
    requires forall i :: 0 <= i < |parts| ==> Ldh(parts[i])
    ensures NormalParts(parts, u) == (parts, None)
  {
    if parts != [] {
      var p := parts[0];
      assert p[|p| - 1..] == [p[|p| - 1]] && p[..1] == [p[0]];
      NormalPartsFixed(parts[1..], u);
      assert parts == [p] + parts[1..];
    }
  }

  lemma {:induction false} NormalPartsEmpty(parts: seq<string>, u: Unicode)
    requires "" in parts
    ensures NormalParts(parts, u).1.Some?
  {
    if parts[0] != "" {
      assert parts == [parts[0]] + parts[1..];
      NormalPartsEmpty(parts[1..], u);
    }
  }

  predicate NameChar(c: char) {
    LdhChar(c) || c == '.'
  }

  lemma {:induction false} JoinChars(parts: seq<string>)
    requires LdhOrEmpty(parts)
    ensures forall i :: 0 <= i < |Join(parts)| ==> NameChar(Join(parts)[i])
  {
    if |parts| > 1 {
      JoinChars(parts[1..]);
    }
  }

  predicate LdhOrEmpty(parts: seq<string>) {
    forall i :: 0 <= i < |parts| ==> parts[i] == "" || Ldh(parts[i])
  }

  lemma StarredText(star: bool, parts: seq<string>)
    requires LdhOrEmpty(parts) && Starred(star, parts) != ""
    ensures var name := Starred(star, parts);
            && TrimSpace(name) == name && name != "@" && (HasPrefix(name, "*.") <==> star)
            && TrimPrefix(name, "*.") == Join(parts)
  {
    JoinChars(parts);
    var name := Starred(star, parts);
    TrimSpaceFixed(name);
    if !star {
      assert NameChar(name[0]);
    }
  }

  lemma FoldedText(parts: seq<string>, u: Unicode)
    requires Folds(u) && LdhOrEmpty(parts) && parts != []
    ensures Lower(u.nfkc(Join(parts))) == Join(parts) && Split(Join(parts)) == parts
  {
    JoinChars(parts);
    SplitJoin(parts);
    assert IsAscii(Join(parts));
  }

  /** On text that is already folded, only the labels decide. */
  lemma NormalOfStarred(star: bool, parts: seq<string>, kind: Kind, u: Unicode)
    requires Folds(u) && parts != [] && LdhOrEmpty(parts) && (kind != Platform ==> |parts| == 1 && !star)
    ensures LdhParts(parts) ==> Normal(Starred(star, parts), kind, u) == Ok(Starred(star, parts))
    ensures "" in parts ==> Normal(Starred(star, parts), kind, u).Err?
  {
    hide TrimSpace, TrimPrefix, HasPrefix, Lower, Split, Ldh, NormalParts;
    FoldedText(parts, u);
    if "" in parts {
      NormalPartsEmpty(parts, u);
      LdhNotEmpty("");
    } else {
      NormalPartsFixed(parts, u);
    }
    if kind != Platform {
      assert Join(parts) == parts[0];
      LdhNoDot(parts[0]);
    }
    if Starred(star, parts) != "" {
      StarredText(star, parts);
    } else {
      LdhNotEmpty(parts[0]);
      EmptyText();
    }
  }

  lemma LdhNoDot(p: string)
    requires p == "" || Ldh(p)
    ensures '.' !in p
  {
  }

  lemma LdhNotEmpty(p: string)
    ensures Ldh(p) ==> p != ""
  {
  }

  lemma EmptyText()
    ensures TrimSpace("") == ""
  {
  }

  /** An accepted label is in canonical form, and normalizing it again returns it, exactly when no part of the
      input is encoded as the empty string; otherwise the second pass rejects what the first accepted. */
  lemma NormalizeIdempotent(raw: string, kind: Kind, u: Unicode)
    requires Folds(u) && Normal(raw, kind, u).Ok?
    ensures var name := Normal(raw, kind, u).name;
            && (Normal(name, kind, u) == Ok(name) <==> !EncodesEmpty(raw, u))
            && (EncodesEmpty(raw, u) ==> Normal(name, kind, u).Err?)
            && (!EncodesEmpty(raw, u) ==> Canonical(name, kind))
  {
    var s := TrimSpace(raw);
    if s != "@" {
      var star, parts := HasPrefix(s, "*."), NormalParts(Split(Body(raw, u)), u).0;
      assert Normal(raw, kind, u).name == Starred(star, parts);
      NormalPartsShape(Split(Body(raw, u)), u);
      if kind != Platform {
        SplitPlain(Body(raw, u));
      }
      NormalOfStarred(star, parts, kind, u);
    }
  }

  predicate LabelChar(c: char) {
    NameChar(c) || c == '*' || c == '@'
  }

  /** Whatever the mappings do, an accepted label is made of few characters. */
  lemma LabelChars(raw: string, kind: Kind, u: Unicode)
    requires Normal(raw, kind, u).Ok?
    ensures forall i :: 0 <= i < |Normal(raw, kind, u).name| ==> LabelChar(Normal(raw, kind, u).name[i])
  {
    if TrimSpace(raw) != "@" {
      var star, parts := HasPrefix(TrimSpace(raw), "*."), NormalParts(Split(Body(raw, u)), u).0;
      NormalPartsShape(Split(Body(raw, u)), u);
      JoinChars(parts);
      assert Normal(raw, kind, u).name == Starred(star, parts);
    }
  }

  /** Tenants never own multi-level or starred names. */
  lemma TenantLabelsFlat(raw: string, kind: Kind, u: Unicode)
    requires kind != Platform && Normal(raw, kind, u).Ok?
    ensures '.' !in Normal(raw, kind, u).name && '*' !in Normal(raw, kind, u).name
  {
    if TrimSpace(raw) != "@" {
      var body := Body(raw, u);
      SplitPlain(body);
      NormalPartsShape([body], u);
      assert Join(NormalParts([body], u).0) == NormalParts([body], u).0[0];
    }
  }

  // ---- what is accepted, and why the rest is not

  /** A part and what it becomes: itself, or its encoding, which must be a label of letters, digits and hyphens; an
      encoding to nothing gets by. */
  ghost predicate PartBecomes(p: string, q: string, u: Unicode) {
    && p != "" && (if forall i :: 0 <= i < |p| ==> p[i] < '\U{80}' then q == p else u.idna(p) == Some(q))
    && |q| <= 63 && (forall i :: 0 <= i < |q| ==> 'a' <= q[i] <= 'z' || '0' <= q[i] <= '9' || q[i] == '-')
    && (q != "" ==> q[0] != '-' && q[|q| - 1] != '-')
  }

  lemma PartMeans(p: string, u: Unicode)
    ensures forall q :: NormalPart(p, u) == Ok(q) <==> PartBecomes(p, q, u)
    ensures NormalPart(p, u) == Err(EmptyLabel) <==> p == ""
    ensures NormalPart(p, u) == Err(TooLong) <==>
              p != "" && if IsAscii(p) then |p| > 63 else u.idna(p).Some? && |u.idna(p).value| > 63
    ensures NormalPart(p, u) == Err(EdgeHyphen) <==>
              p != "" && (IsAscii(p) || u.idna(p).Some?)
              && var q := if IsAscii(p) then p else u.idna(p).value;
                 0 < |q| <= 63 && (q[0] == '-' || q[|q| - 1] == '-')
    ensures NormalPart(p, u) != Err(DotsInLabel)
  {
    if p != "" && (IsAscii(p) || u.idna(p).Some?) {
      var q := if IsAscii(p) then p else u.idna(p).value;
      if q != "" {
        assert q[|q| - 1..] == [q[|q| - 1]] && q[..1] == [q[0]];
      }
    }
  }

  lemma {:induction false} PartsMean(parts: seq<string>, u: Unicode)
    ensures forall out :: NormalParts(parts, u) == (out, None) <==>
              |out| == |parts| && forall i :: 0 <= i < |parts| ==> PartBecomes(parts[i], out[i], u)
  {
    hide NormalPart, PartBecomes;
    if parts != [] {
      PartMeans(parts[0], u);
      PartsMean(parts[1..], u);
      forall out
        ensures NormalParts(parts, u) == (out, None) <==>
                  |out| == |parts| && forall i :: 0 <= i < |parts| ==> PartBecomes(parts[i], out[i], u)
      {
        if |out| == |parts| {
          assert out == [out[0]] + out[1..];
          assert (forall i :: 0 <= i < |parts| ==> PartBecomes(parts[i], out[i], u)) <==>
              PartBecomes(parts[0], out[0], u)
              && forall i :: 0 <= i < |parts[1..]| ==> PartBecomes(parts[1..][i], out[1..][i], u) by {
            assert forall i :: 0 <= i < |parts[1..]| ==> parts[1..][i] == parts[i + 1] && out[1..][i] == out[i + 1];
          }
        }
      }
    }
  }

  /** The whole function as a relation: trimmed, "@" apart, folded, lowered, and rewritten part by part; only the
      platform may have dots and a star. */
  lemma NormalMeans(raw: string, kind: Kind, u: Unicode, name: string)
    ensures Normal(raw, kind, u) == Ok(name) <==>
              var s := TrimSpace(raw);
              && s != ""
              && if s == "@" then name == "@"
                 else
                   var star := |s| >= 2 && s[0] == '*' && s[1] == '.';
                   var parts := Split(Lower(u.nfkc(if star then s[2..] else s)));
                   && (kind != Platform ==> !star && |parts| == 1)
                   && exists out ::
                        |out| == |parts| && (forall i :: 0 <= i < |parts| ==> PartBecomes(parts[i], out[i], u))
                                    && name == (if star then "*." else "") + Join(out)
    ensures var s := TrimSpace(raw);
            if s == "" then Normal(raw, kind, u) == Err(EmptyLabel)
            else if s != "@" && kind != Platform && ((|s| >= 2 && s[..2] == "*.") || '.' in Lower(u.nfkc(s))) then
              Normal(raw, kind, u) == Err(DotsInLabel)
            else true
  {
    hide Split, Join, Lower, NormalParts, TrimSpace, PartBecomes;
    var s := TrimSpace(raw);
    if s != "" && s != "@" {
      var star := |s| >= 2 && s[0] == '*' && s[1] == '.';
      assert star <==> HasPrefix(s, "*.");
      var body := Lower(u.nfkc(if star then s[2..] else s));
      assert body == Lower(u.nfkc(TrimPrefix(s, "*.")));
      SplitDots(body);
      PartsMean(Split(body), u);
      if Normal(raw, kind, u) == Ok(name) {
        var out := NormalParts(Split(body), u).0;
        assert NormalParts(Split(body), u) == (out, None);
      }
    }
  }

  lemma {:induction false} SplitDots(s: string)
    ensures |Split(s)| == 1 <==> '.' !in s
  {
    if s != [] {
      SplitDots(s[1..]);
      assert s == [s[0]] + s[1..];
    }
  }

  // ---- the loops

  /** The result when `done` is rewritten and `rest` is still to do. */
  function Resume(done: seq<string>, rest: seq<string>, u: Unicode): (seq<string>, Option<LabelError>) {
    var r := NormalParts(rest, u);
    if r.1.Some? then ([], r.1) else (done + r.0, None)
  }

  lemma ResumeStep(done: seq<string>, rest: seq<string>, u: Unicode)
    requires rest != []
    ensures Resume(done, rest, u) == match NormalPart(rest[0], u)
                                     case Err(e) => ([], Some(e))
                                     case Ok(p) => Resume(done + [p], rest[1..], u)
  {
    match NormalPart(rest[0], u)
    case Err(_) =>
    case Ok(p) =>
      var r := NormalParts(rest[1..], u);
      assert done + ([p] + r.0) == (done + [p]) + r.0;
  }

  method NormalizePart(p: string, u: Unicode) returns (r: Result)
    ensures r == NormalPart(p, u)
  {
    if p == "" {
      return Err(EmptyLabel);
    }
    var q := p;
    if !IsAscii(p) {
      var enc := u.idna(p);
      if enc == None {
        return Err(BadRune);
      }
      q := enc.value;
    }
    if |q| > 63 {
      return Err(TooLong);
    }
    if HasPrefix(q, "-") || HasSuffix(q, "-") {
      return Err(EdgeHyphen);
    }
    for i := 0 to |q|
      invariant forall j :: 0 <= j < i ==> LdhChar(q[j])
    {
      if !LdhChar(q[i]) {
        assert !AllLdh(q);
        return Err(BadRune);
      }
    }
    return Ok(q);
  }

  /** The label rewritten part by part; the first bad part decides the error. */
  method Normalize(raw: string, kind: Kind, u: Unicode) returns (r: Result)
    ensures r == Normal(raw, kind, u)
  {
    var s := TrimSpace(raw);
    if s == "" {
      return Err(EmptyLabel);
    }
    if s == "@" {
      return Ok("@");
    }
    var wildcard := false;
    if HasPrefix(s, "*.") {
      if kind != Platform {
        return Err(DotsInLabel);
      }
      wildcard := true;
      s := TrimPrefix(s, "*.");
    }
    s := Lower(u.nfkc(s));
    if '.' in s && kind != Platform {
      return Err(DotsInLabel);
    }
    var parts := Split(s);
    ghost var original := parts;
    assert parts[..0] == [] && parts[0..] == parts;
    assert [] + NormalParts(parts, u).0 == NormalParts(parts, u).0;
    for i := 0 to |parts|
      invariant |parts| == |original| && parts[i..] == original[i..]
      invariant NormalParts(original, u) == Resume(parts[..i], parts[i..], u)
    {
      ResumeStep(parts[..i], parts[i..], u);
      assert parts[i..][1..] == parts[i + 1..] == original[i + 1..];
      var np := NormalizePart(parts[i], u);
      match np
      case Err(e) => return Err(e);
      case Ok(p) =>
        parts := parts[i := p];
        assert parts[..i + 1] == parts[..i] + [p];
    }
    assert parts[..|parts|] + [] == parts && parts[|parts|..] == [];
    var out := Join(parts);
    if wildcard {
      out := "*." + out;
    }
    return Ok(out);
  }
}
