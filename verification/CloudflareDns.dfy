/** The Cloudflare writer: one record per active row of a zone. Records are told apart by ids that the provider
    picks. */
module CloudflareDns {
  import opened Core
  import opened Text
  import opened DesiredState
  import Registry
  import Rec = Reconciler

  datatype Record = Record(kind: string, content: string, ttl: int, proxied: bool)

  /** A zone with the target its records point at. */
  datatype CfZone = CfZone(zone: string, target: string, proxied: bool)

  predicate HasLetter(s: string) {
    exists i :: 0 <= i < |s| && 'a' <= s[i] <= 'z'
  }

  function RecordType(target: string): string {
    if Count(target, '.') >= 1 && HasLetter(target) then "CNAME" else "A"
  }

  /** A target with a dot and a small letter is a name, any other an address. */
  lemma RecordTypeMeans(target: string)
    ensures RecordType(target) == "CNAME" <==>
              '.' in target && exists c :: c in target && 'a' <= c <= 'z'
    ensures RecordType(target) == "CNAME" || RecordType(target) == "A"
  {
    CountIn(target, '.');
    if c :| c in target && 'a' <= c <= 'z' {
      var i :| 0 <= i < |target| && target[i] == c;
    }
    if HasLetter(target) {
      var i :| 0 <= i < |target| && 'a' <= target[i] <= 'z';
      assert target[i] in target;
    }
  }

  lemma {:induction false} CountIn(s: string, c: char)
    ensures Count(s, c) >= 1 <==> c in s
  {
    if s != [] {
      CountIn(s[1..], c);
      assert s == [s[0]] + s[1..];
    }
  }

  function Desired(a: Allocation, z: CfZone): Option<Want<Record>> {
    Some(Want(if a.name == "@" then z.zone else a.fqdn, Record(RecordType(z.target), z.target, 1, z.proxied)))
  }

  function Wish(z: CfZone): Allocation -> Option<Want<Record>> {
    a => Desired(a, z)
  }

  /** The time to live is not compared. */
  predicate SameRecord(a: Record, b: Record) {
    a.kind == b.kind && a.content == b.content && a.proxied == b.proxied
  }

  function PassOf(desired: map<string, Record>, ids: string -> string, fails: Rec.Write -> bool): Rec.Pass<Record> {
    Rec.Pass(desired, (a, b) => SameRecord(a, b), ids, fails)
  }

  /** Unlike route names, record names never clash: the desired map has exactly one record for each active row of
      the zone. */
  lemma OneRecordPerRow(rows: map<Key, Allocation>, z: CfZone, desired: map<string, Record>)
    requires NamedRows(rows) && z.zone != "" && Wanted(rows, [z.zone], Wish(z), desired)
    ensures forall name ::
              name in desired <==> exists k <- rows ::
                k.zone == z.zone && rows[k].state == Active && Fqdn(k.name, k.zone) == name
    ensures forall k, l | k in rows && l in rows && k.zone == z.zone && l.zone == z.zone ::
              Fqdn(k.name, k.zone) == Fqdn(l.name, l.zone) ==> k == l
    ensures forall name :: name in desired ==> desired[name] == Record(RecordType(z.target), z.target, 1, z.proxied)
  {
    hide RecordType;
    forall k | k in rows
      ensures InScope(rows[k], [z.zone]) <==> k.zone == z.zone && rows[k].state == Active
      ensures k.zone == z.zone ==>
                Wish(z)(rows[k]) == Some(Want(Fqdn(k.name, k.zone),
                                              Record(RecordType(z.target), z.target, 1, z.proxied)))
    {
      assert z.zone in [z.zone];
    }
    forall k, l | k in rows && l in rows && k.zone == z.zone && l.zone == z.zone
           && Fqdn(k.name, k.zone) == Fqdn(l.name, l.zone)
      ensures k == l
    {
      FqdnInjective(k.name, l.name, z.zone);
    }
  }

  /** One zone's part of a pass. */
  method ReconcileZone(store: Registry.Store, records: Rec.Cluster<Record>, z: CfZone, ids: string -> string,
                       fails: Rec.Write -> bool)
    returns (desired: map<string, Record>)
    requires Keyed(store.rows) && Rec.OwnIds(PassOf(map[], ids, fails))
    modifies records
    ensures Wanted(store.rows, [z.zone], Wish(z), desired)
    ensures Rec.Passed(old(records.objects), PassOf(desired, ids, fails), records.objects)
  {
    desired := BuildDesired(store, [z.zone], Wish(z));
    records.Reconcile(PassOf(desired, ids, fails));
  }

  /** After a pass without failures, every managed record is a row's, with the right content, every active row has
      one, and further passes leave the zone alone. */
  lemma RecordsAreRows(rows: map<Key, Allocation>, z: CfZone, desired: map<string, Record>,
                       before: map<string, Rec.Obj<Record>>, p: Rec.Pass<Record>, after: map<string, Rec.Obj<Record>>,
                       q: Rec.Pass<Record>, later: map<string, Rec.Obj<Record>>)
    requires NamedRows(rows) && z.zone != "" && Wanted(rows, [z.zone], Wish(z), desired)
    requires p == PassOf(desired, p.ids, p.fails) && q == PassOf(desired, q.ids, q.fails) && Rec.OwnIds(p)
             && Rec.OwnIds(q)
    requires (forall w :: !p.fails(w)) && (forall name :: p.ids(name) !in before)
    requires Rec.Passed(before, p, after) && Rec.Passed(after, q, later)
    ensures forall id <- after :: after[id].marked ==>
              after[id].spec.content == z.target && after[id].spec.proxied == z.proxied
              && after[id].spec.kind == (if '.' in z.target && (exists c :: c in z.target && 'a' <= c <= 'z')
                                          then "CNAME"
                                         else "A")
              && exists k <- rows ::
                   k.zone == z.zone && rows[k].state == Active && Fqdn(k.name, k.zone) == after[id].name
    ensures forall k <- rows :: k.zone == z.zone && rows[k].state == Active ==>
              exists id <- after :: after[id].marked && after[id].name == Fqdn(k.name, k.zone)
    ensures later == after
  {
    hide Rec.Passed, Wanted, NamedRows, Fqdn, Rec.OwnIds, RecordType;
    RecordTypeMeans(z.target);
    PassFacts(desired, p);
    PassFacts(desired, q);
    OneRecordPerRow(rows, z, desired);
    Rec.ZoneSettles(before, p, after, q, later);
    forall id | id in after && after[id].marked
      ensures after[id].name in desired && SameRecord(after[id].spec, desired[after[id].name])
    {
      assert !Rec.Open(after, p, Rec.Delete(id)) && !Rec.Open(after, p, Rec.Repair(id));
    }
    forall name | name in desired
      ensures exists id :: id in after && after[id].marked && after[id].name == name
    {
      assert !Rec.Open(after, p, Rec.Create(name));
    }
    forall k | k in rows && k.zone == z.zone && rows[k].state == Active
      ensures Fqdn(k.name, k.zone) in desired
    {
    }
  }

  lemma PassFacts(desired: map<string, Record>, p: Rec.Pass<Record>)
    requires p == PassOf(desired, p.ids, p.fails)
    ensures Rec.Reflexive(p) && p.desired == desired && forall a, b :: p.same(a, b) <==> SameRecord(a, b)
  {
  }
}
