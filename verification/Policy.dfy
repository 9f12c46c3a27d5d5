/** Label policies of a zone, and the alternatives offered when a label is refused. */
module Policies {
  import opened Core
  import opened Text

  datatype Reason = Taken | ReservedName | BlockedName | PolicyViolation | Invalid

  /** No kinds allow all kinds; a bound of 0 is no bound. */
  datatype Policy = Policy(minLen: int, maxLen: int, pattern: Option<string -> bool>, allow: set<Kind>,
                           blocked: set<string>)

  /** Why a normalized label may not be claimed. The blocklist and the shape rules are for tenants. */
  function Check(p: Policy, name: string, kind: Kind): Option<Reason> {
    if p.allow != {} && kind !in p.allow then Some(PolicyViolation)
    else if kind != Tenant then None
    else if name in p.blocked then Some(BlockedName)
    else if p.minLen > 0 && |name| < p.minLen then Some(PolicyViolation)
    else if p.maxLen > 0 && |name| > p.maxLen then Some(PolicyViolation)
    else if p.pattern.Some? && !p.pattern.value(name) then Some(PolicyViolation)
    else None
  }

  function Candidates(base: string): seq<string> {
    [base + "-app", base + "-hq", base + "-team", "get" + base, base + "-2"]
  }

  function Short(cs: seq<string>): seq<string> {
    if cs == [] then []
    else Short(cs[..|cs| - 1]) + if |cs[|cs| - 1]| <= 63 then [cs[|cs| - 1]] else []
  }

  /** Candidates only: whether one is free is for the caller to check. */
  method Suggest(name: string) returns (out: seq<string>)
    ensures out == Short(Candidates(TrimSpace(Lower(name))))
  {
    var base := TrimSpace(Lower(name));
    var cs := Candidates(base);
    out := [];
    for i := 0 to |cs|
      invariant out == Short(cs[..i])
    {
      assert cs[..i + 1][..i] == cs[..i];
      if cs[i] != base && |cs[i]| <= 63 {
        out := out + [cs[i]];
      }
    }
    assert cs[..|cs|] == cs;
  }

  /** The variants that fit, each once, in this order. */
  lemma SuggestedAre(base: string)
    ensures forall s :: s in Short(Candidates(base)) <==>
              |s| <= 63 && (s == base + "-app" || s == base + "-hq" || s == base + "-team" || s == "get" + base
                            || s == base + "-2")
    ensures |base| <= 58 ==>
              Short(Candidates(base)) == [base + "-app", base + "-hq", base + "-team", "get" + base, base + "-2"]
  {
    hide Candidates, Short;
    ShortAre(Candidates(base));
    CandidatesAre(base);
    OneOfFive(base + "-app", base + "-hq", base + "-team", "get" + base, base + "-2");
    if |base| <= 58 {
      ShortAll(Candidates(base));
    }
  }

  lemma CandidatesAre(base: string)
    ensures Candidates(base) == [base + "-app", base + "-hq", base + "-team", "get" + base, base + "-2"]
  {
  }

  lemma OneOfFive(a: string, b: string, c: string, d: string, e: string)
    ensures forall s :: s in [a, b, c, d, e] <==> s == a || s == b || s == c || s == d || s == e
  {
  }

  lemma {:induction false} ShortAre(cs: seq<string>)
    ensures forall s :: s in Short(cs) <==> s in cs && |s| <= 63
  {
    if cs != [] {
      ShortAre(cs[..|cs| - 1]);
      assert cs == cs[..|cs| - 1] + [cs[|cs| - 1]];
    }
  }

  lemma {:induction false} ShortAll(cs: seq<string>)
    requires forall s :: s in cs ==> |s| <= 63
    ensures Short(cs) == cs
  {
    if cs != [] {
      assert cs == cs[..|cs| - 1] + [cs[|cs| - 1]];
      ShortAll(cs[..|cs| - 1]);
    }
  }
}
