/** The catch-all check: a host route must beat every single-label catch-all over the zone root. */
module Shadow {
  import opened Core
  import opened Text
  import opened Routes

  datatype Conflict = Conflict(zone: string, name: string, detail: string, route: string, related: string)

  // ---- numerals

  const MIN := -0x8000_0000_0000_0000
  const MAX := 0x7fff_ffff_ffff_ffff

  /** Negation on 64 bits: the least number is its own. */
  function Negated(i: int): int {
    if i == MIN then MIN else -i
  }

  function Digit(d: int): char
    requires 0 <= d < 10
  {
    '0' + (d as char)
  }

  function Digits(n: nat): string {
    if n == 0 then "" else Digits(n / 10) + [Digit(n % 10)]
  }

  /** The decimal numeral of a number. */
  function Decimal(i: int): string {
    if i == 0 then "0" else if i < 0 then "-" + Digits(-i) else Digits(i)
  }

  /** Reading digits back. */
  function Value(s: string): int {
    if s == "" then 0 else 10 * Value(s[..|s| - 1]) + (s[|s| - 1] as int - '0' as int)
  }

  lemma {:induction false} DigitsRead(n: nat)
    ensures Value(Digits(n)) == n && (n > 0 ==> Digits(n) != "" && '0' <= Digits(n)[0] <= '9')
  {
    if n > 0 {
      DigitsRead(n / 10);
      assert Digits(n)[..|Digits(n)| - 1] == Digits(n / 10);
    }
  }

  function Read(s: string): int {
    if s != "" && s[0] == '-' then -Value(s[1..]) else Value(s)
  }

  /** Numerals are read back, so two different numbers never print alike. */
  lemma DecimalRead(i: int)
    ensures Read(Decimal(i)) == i
  {
    DigitsRead(if i < 0 then -i else i);
    if i < 0 {
      assert Decimal(i)[1..] == Digits(-i);
    } else if i == 0 {
      assert "0"[..0] == "";
    }
  }

  lemma {:induction false} DigitsShort(n: nat, k: nat)
    requires n < Pow10(k)
    ensures |Digits(n)| <= k
  {
    if n > 0 {
      DigitsShort(n / 10, k - 1);
    }
  }

  function Pow10(k: nat): nat {
    if k == 0 then 1 else 10 * Pow10(k - 1)
  }

  lemma TenTo19()
    ensures Pow10(19) > MAX
  {
    assert Pow10(4) == 10_000;
    assert Pow10(8) == 10_000 * Pow10(4);
    assert Pow10(12) == 10_000 * Pow10(8);
    assert Pow10(16) == 10_000 * Pow10(12);
    assert Pow10(19) == 1_000 * Pow10(16);
  }

  lemma DigitsStep(n: nat)
    requires n > 0
    ensures Digits(n) == Digits(n / 10) + [Digit(n % 10)] && |Digits(n)| == |Digits(n / 10)| + 1
  {
  }

  lemma DigitsZero()
    ensures Digits(0) == ""
  {
  }

  /** Fills a buffer with a numeral from its end. */
  method Fill(b: array<char>, value: nat) returns (n: nat)
    requires 0 < value && |Digits(value)| < b.Length
    modifies b
    ensures 0 < n < b.Length && b[n..] == Digits(value)
  {
    hide Digits, Digit;
    n := b.Length;
    var rest: nat := value;
    DigitsZero();
    assert Digits(value) + b[n..] == Digits(value);
    while rest > 0
      invariant 0 <= n <= b.Length && 0 <= rest <= value && |Digits(rest)| + b.Length - n == |Digits(value)|
      invariant Digits(value) == Digits(rest) + b[n..]
      decreases rest
    {
      DigitsStep(rest);
      n := n - 1;
      b[n] := Digit(rest % 10);
      assert b[n..] == [Digit(rest % 10)] + b[n + 1..];
      rest := rest / 10;
    }
    DigitsStep(value);
    assert Digits(0) + b[n..] == b[n..];
  }

  /** Works in a 20-byte buffer. The least 64-bit number comes out as a bare sign. */
  method Itoa(i: int) returns (r: string)
    requires MIN <= i <= MAX
    ensures r == if i == MIN then "-" else Decimal(i)
  {
    hide Digits, Pow10;
    if i == 0 {
      return "0";
    }
    var neg, rest := i < 0, i;
    if neg {
      rest := Negated(i);
    }
    var b := new char[20];
    var n := b.Length;
    if rest > 0 {
      TenTo19();
      DigitsShort(rest, 19);
      n := Fill(b, rest);
    }
    if neg {
      n := n - 1;
      b[n] := '-';
      assert b[n..] == ['-'] + b[n + 1..];
    }
    return b[n..];
  }

  // ---- the check

  /** The route covers every single-label host of the zone. */
  predicate CatchesAll(r: ObservedRoute, zone: string) {
    CatchAll(zone) in r.hosts
  }

  /** A single-label exact host of the zone: what falls inside the catch-all's class. */
  predicate SingleLabel(h: HostPattern, zone: string) {
    h.Exact? && HasSuffix(h.host, "." + zone) && '.' !in TrimSuffix(h.host, "." + zone)
  }

  predicate SameObject(r: ObservedRoute, s: ObservedRoute) {
    r.namespace == s.namespace && r.name == s.name
  }

  predicate Shadowed(zone: string, routes: seq<ObservedRoute>, ca: ObservedRoute, r: ObservedRoute, h: HostPattern) {
    && ca in routes && CatchesAll(ca, zone) && r in routes && !SameObject(r, ca) && h in r.hosts && SingleLabel(h, zone)
    && r.EffectivePriority() <= ca.EffectivePriority()
  }

  /** The check by the columns: another object's route for a one-label host of the zone, against a catch-all over
      the zone, each with its priority or, without one, the length of its rule. */
  lemma ShadowedMeans(zone: string, routes: seq<ObservedRoute>, ca: ObservedRoute, r: ObservedRoute, h: HostPattern)
    ensures Shadowed(zone, routes, ca, r, h) <==>
              && ca in routes && r in routes && h in r.hosts
              && (exists i :: 0 <= i < |ca.hosts| && ca.hosts[i] == CatchAll(zone))
              && (r.namespace != ca.namespace || r.name != ca.name)
              && (exists name :: '.' !in name && h == Exact(name + ("." + zone)))
              && (if r.priority == 0 then |r.rule| else r.priority)
                 <= (if ca.priority == 0 then |ca.rule| else ca.priority)
  {
    if h.Exact? {
      forall name
        ensures HasSuffix(h.host, "." + zone) && TrimSuffix(h.host, "." + zone) == name <==>
                  h == Exact(name + ("." + zone))
      {
        SuffixIff(h.host, name, "." + zone);
      }
      if SingleLabel(h, zone) {
        assert h == Exact(TrimSuffix(h.host, "." + zone) + ("." + zone));
      }
    }
  }

  /** What is reported: the label, both routes, and their priorities in decimal. */
  lemma FindingMeans(zone: string, ca: ObservedRoute, r: ObservedRoute, name: string)
    ensures var host := name + ("." + zone);
            var mine, theirs := if r.priority == 0 then |r.rule| else r.priority,
                                if ca.priority == 0 then |ca.rule| else ca.priority;
            MIN < mine && MIN < theirs ==>
              Finding(zone, ca, r, Exact(host)) ==
              Conflict(zone, name,
                       "route for " + host + " has effective priority " + Decimal(mine)
                       + " which does not beat catch-all "
                       + (ca.namespace + "/" + ca.name) + " at " + Decimal(theirs)
                       + "; raise the host route's priority",
                       r.namespace + "/" + r.name, ca.namespace + "/" + ca.name)
  {
    SuffixOfConcat(name, "." + zone);
  }

  function Numeral(i: int): string {
    if i == MIN then "-" else Decimal(i)
  }

  function Detail(host: string, mine: string, ref: string, theirs: string): string {
    "route for " + host + " has effective priority " + mine + " which does not beat catch-all " + ref + " at " + theirs
    + "; raise the host route's priority"
  }

  function Finding(zone: string, ca: ObservedRoute, r: ObservedRoute, h: HostPattern): Conflict
  {
    var host := if h.Exact? then h.host else "";
    Conflict(zone, TrimSuffix(host, "." + zone),
             Detail(host, Numeral(r.EffectivePriority()), ca.Ref(), Numeral(ca.EffectivePriority())),
             r.Ref(), ca.Ref())
  }

  /** Priorities and lengths are machine integers. */
  predicate Sized(routes: seq<ObservedRoute>) {
    forall r <- routes :: MIN <= r.EffectivePriority() <= MAX
  }

  /** The findings of the first `n` hosts of a route against one catch-all. */
  ghost predicate HostFindings(zone: string, ca: ObservedRoute, r: ObservedRoute, n: nat, out: seq<Conflict>)
    requires n <= |r.hosts|
  {
    forall c ::
             c in out <==> exists i ::
               0 <= i < n && SingleLabel(r.hosts[i], zone) && c == Finding(zone, ca, r, r.hosts[i])
  }

  method CheckRoute(zone: string, ca: ObservedRoute, r: ObservedRoute) returns (out: seq<Conflict>)
    requires Sized([r, ca])
    ensures r.EffectivePriority() <= ca.EffectivePriority() ==> HostFindings(zone, ca, r, |r.hosts|, out)
    ensures r.EffectivePriority() > ca.EffectivePriority() ==> out == []
  {
    hide Finding, SingleLabel;
    out := [];
    for i := 0 to |r.hosts|
      invariant r.EffectivePriority() <= ca.EffectivePriority() ==> HostFindings(zone, ca, r, i, out)
      invariant r.EffectivePriority() > ca.EffectivePriority() ==> out == []
    {
      var h := r.hosts[i];
      var inside := InClass(h, zone);
      if inside && r.EffectivePriority() <= ca.EffectivePriority() {
        var finding := Report(zone, ca, r, h);
        out := out + [finding];
      }
    }
  }

  method InClass(h: HostPattern, zone: string) returns (inside: bool)
    ensures inside <==> SingleLabel(h, zone)
    ensures inside ==> h.Exact?
  {
    if !h.Exact? || !HasSuffix(h.host, "." + zone) {
      return false;
    }
    var name := TrimSuffix(h.host, "." + zone);
    return '.' !in name;
  }

  method Report(zone: string, ca: ObservedRoute, r: ObservedRoute, h: HostPattern) returns (c: Conflict)
    requires Sized([r, ca]) && h.Exact?
    ensures c == Finding(zone, ca, r, h)
  {
    hide Detail, Decimal;
    assert r in [r, ca] && ca in [r, ca];
    var mine := Itoa(r.EffectivePriority());
    var theirs := Itoa(ca.EffectivePriority());
    return Conflict(zone, TrimSuffix(h.host, "." + zone), Detail(h.host, mine, ca.Ref(), theirs), r.Ref(), ca.Ref());
  }

  /** The zone's catch-alls, once for every pattern that makes them one. */
  method CatchAlls(zone: string, routes: seq<ObservedRoute>) returns (cas: seq<ObservedRoute>)
    ensures forall r :: r in cas <==> r in routes && CatchesAll(r, zone)
  {
    cas := [];
    for i := 0 to |routes|
      invariant forall r :: r in cas <==> r in routes[..i] && CatchesAll(r, zone)
    {
      ghost var before := cas;
      for j := 0 to |routes[i].hosts|
        invariant forall r :: r in cas <==> r in before || (r == routes[i] && CatchAll(zone) in routes[i].hosts[..j])
      {
        if routes[i].hosts[j].CatchAll? && routes[i].hosts[j].suffix == zone {
          cas := cas + [routes[i]];
        }
      }
    }
  }

  /** Sound and complete: the findings are those of every shadowed host, each against every catch-all that shadows
      it. */
  method ShadowCheck(zone: string, routes: seq<ObservedRoute>) returns (out: seq<Conflict>)
    requires Sized(routes)
    ensures forall c ::
              c in out <==> exists ca, r, h :: Shadowed(zone, routes, ca, r, h) && c == Finding(zone, ca, r, h)
  {
    hide Finding, SingleLabel, CatchesAll, SameObject;
    out := [];
    var cas := CatchAlls(zone, routes);
    for i := 0 to |cas|
      invariant forall c ::
                  c in out <==> exists ca, r, h ::
                    ca in cas[..i] && Shadowed(zone, routes, ca, r, h) && c == Finding(zone, ca, r, h)
    {
      var found := CheckAgainst(zone, routes, cas[i]);
      out := out + found;
    }
  }

  /** The findings of the first `n` routes against one catch-all. */
  ghost predicate RouteFindings(zone: string, routes: seq<ObservedRoute>, ca: ObservedRoute, n: nat, out: seq<Conflict>)
    requires n <= |routes|
  {
    forall c :: c in out <==> exists i :: 0 <= i < n && Reports(zone, ca, routes[i], c)
  }

  ghost predicate Reports(zone: string, ca: ObservedRoute, r: ObservedRoute, c: Conflict) {
    && !SameObject(r, ca) && r.EffectivePriority() <= ca.EffectivePriority()
    && exists h :: h in r.hosts && SingleLabel(h, zone) && c == Finding(zone, ca, r, h)
  }

  lemma ReportsAre(zone: string, routes: seq<ObservedRoute>, ca: ObservedRoute, out: seq<Conflict>)
    requires ca in routes && CatchesAll(ca, zone) && RouteFindings(zone, routes, ca, |routes|, out)
    ensures forall c :: c in out <==> exists r, h :: Shadowed(zone, routes, ca, r, h) && c == Finding(zone, ca, r, h)
  {
    hide Finding, SingleLabel, CatchesAll, SameObject;
    forall c, r, h | Shadowed(zone, routes, ca, r, h) && c == Finding(zone, ca, r, h)
      ensures c in out
    {
      var i :| 0 <= i < |routes| && routes[i] == r;
      assert Reports(zone, ca, routes[i], c);
    }
    forall c | c in out
      ensures exists r, h :: Shadowed(zone, routes, ca, r, h) && c == Finding(zone, ca, r, h)
    {
      var i :| 0 <= i < |routes| && Reports(zone, ca, routes[i], c);
      var h :| h in routes[i].hosts && SingleLabel(h, zone) && c == Finding(zone, ca, routes[i], h);
      assert routes[i] in routes && Shadowed(zone, routes, ca, routes[i], h);
    }
  }

  lemma HostsReport(zone: string, ca: ObservedRoute, r: ObservedRoute, out: seq<Conflict>)
    requires r.EffectivePriority() <= ca.EffectivePriority() ==> HostFindings(zone, ca, r, |r.hosts|, out)
    requires r.EffectivePriority() > ca.EffectivePriority() ==> out == []
    requires !SameObject(r, ca)
    ensures forall c :: c in out <==> Reports(zone, ca, r, c)
  {
    hide Finding, SingleLabel, SameObject;
    forall c | Reports(zone, ca, r, c)
      ensures c in out
    {
      var h :| h in r.hosts && SingleLabel(h, zone) && c == Finding(zone, ca, r, h);
      var i :| 0 <= i < |r.hosts| && r.hosts[i] == h;
    }
  }

  method CheckAgainst(zone: string, routes: seq<ObservedRoute>, ca: ObservedRoute) returns (out: seq<Conflict>)
    requires Sized(routes) && ca in routes && CatchesAll(ca, zone)
    ensures forall c :: c in out <==> exists r, h :: Shadowed(zone, routes, ca, r, h) && c == Finding(zone, ca, r, h)
  {
    hide Finding, SingleLabel, CatchesAll, Reports, HostFindings, Shadowed;
    out := [];
    for i := 0 to |routes|
      invariant RouteFindings(zone, routes, ca, i, out)
    {
      var r := routes[i];
      if r.namespace == ca.namespace && r.name == ca.name {
        SameReportsNothing(zone, ca, r);
        continue;
      }
      var found := CheckRoute(zone, ca, r);
      HostsReport(zone, ca, r, found);
      out := out + found;
    }
    ReportsAre(zone, routes, ca, out);
  }

  lemma SameReportsNothing(zone: string, ca: ObservedRoute, r: ObservedRoute)
    requires SameObject(r, ca)
    ensures forall c :: !Reports(zone, ca, r, c)
  {
  }
}
