/** The Gateway API writer: the same pass as for Traefik, over HTTP routes compared whole. */
module GatewayApi {
  import opened Core
  import opened DesiredState
  import Registry
  import Rec = Reconciler
  import T = Traefik

  datatype HrSpec = HrSpec(gateway: string, gatewayNamespace: string, hostnames: seq<string>, service: string,
                           port: int)

  /** Only the first route counts here, and the wildcard is a second hostname. */
  function Desired(a: Allocation, gateway: string, gatewayNamespace: string): Option<Want<HrSpec>> {
    if a.state != Active || a.spec.routes == [] then None
    else match a.spec.routes[0].backend
      case Service(ns, name, port) =>
        Some(Want(ns + "/" + T.RouteName(a.zone, a.name),
                  HrSpec(gateway, gatewayNamespace, [a.fqdn] + if a.spec.wildcard then ["*." + a.fqdn]
                         else [], name, port)))
      case _ => None
  }

  /** What a row wants, by its columns: its name, and everything below it for a wildcard, to its first route's
      service. */
  lemma DesiredMeans(a: Allocation, gateway: string, gatewayNamespace: string)
    ensures Desired(a, gateway, gatewayNamespace).Some? <==>
              a.state == Active && |a.spec.routes| > 0 && a.spec.routes[0].backend.Service?
    ensures Desired(a, gateway, gatewayNamespace).Some? ==>
              var want, b := Desired(a, gateway, gatewayNamespace).value, a.spec.routes[0].backend;
              && want.key == b.namespace + "/" + T.RouteName(a.zone, a.name)
              && want.spec.service == b.name && want.spec.port == b.port
              && want.spec.gateway == gateway && want.spec.gatewayNamespace == gatewayNamespace
              && forall h :: h in want.spec.hostnames <==> h == a.fqdn || (a.spec.wildcard && h == "*." + a.fqdn)
  {
    hide T.RouteName;
  }

  function Wish(gateway: string, gatewayNamespace: string): Allocation -> Option<Want<HrSpec>> {
    a => Desired(a, gateway, gatewayNamespace)
  }

  function PassOf(desired: map<string, HrSpec>, fails: Rec.Write -> bool): Rec.Pass<HrSpec> {
    Rec.Pass(desired, (a, b) => a == b, name => name, fails)
  }

  /** A row wants an HTTP route only where it wants a Traefik route of the same key. */
  lemma SameRows(a: Allocation, gateway: string, gatewayNamespace: string, eps: seq<string>)
    requires Desired(a, gateway, gatewayNamespace).Some?
    ensures T.Desired(a, eps).Some? && T.Desired(a, eps).value.key == Desired(a, gateway, gatewayNamespace).value.key
  {
  }

  method Reconcile(store: Registry.Store, cluster: Rec.Cluster<HrSpec>, zones: seq<string>, gateway: string,
                   gatewayNamespace: string,
                   fails: Rec.Write -> bool) returns (desired: map<string, HrSpec>)
    requires Keyed(store.rows)
    modifies cluster
    ensures Wanted(store.rows, zones, Wish(gateway, gatewayNamespace), desired)
    ensures Rec.Passed(old(cluster.objects), PassOf(desired, fails), cluster.objects)
  {
    desired := BuildDesired(store, zones, Wish(gateway, gatewayNamespace));
    cluster.Reconcile(PassOf(desired, fails));
  }

  /** After a pass without failures the managed routes are the desired map to the letter, names held by hand-
      written routes apart, and further passes leave the cluster alone. */
  lemma RoutesAreDesired(desired: map<string, HrSpec>, before: map<string, Rec.Obj<HrSpec>>, p: Rec.Pass<HrSpec>,
                         after: map<string, Rec.Obj<HrSpec>>, q: Rec.Pass<HrSpec>, later: map<string, Rec.Obj<HrSpec>>)
    requires p == PassOf(desired, p.fails) && q == p.(fails := q.fails) && (forall w :: !p.fails(w))
    requires forall id <- before :: before[id].name == id
    requires Rec.Passed(before, p, after) && Rec.Passed(after, q, later)
    ensures forall name :: name in desired && !(name in before && !before[name].marked) ==>
              name in after && after[name] == Rec.Obj(name, true, desired[name])
    ensures forall name :: name in after && after[name].marked ==> name in desired
    ensures later == after
  {
    hide Rec.Passed;
    PassFacts(desired, p);
    Rec.ClusterSettles(before, p, after, q, later);
  }

  lemma PassFacts(desired: map<string, HrSpec>, p: Rec.Pass<HrSpec>)
    requires p == PassOf(desired, p.fails)
    ensures Rec.Reflexive(p) && Rec.OwnIds(p) && (forall name :: p.ids(name) == name) && p.desired == desired
    ensures forall a, b :: p.same(a, b) <==> a == b
  {
  }
}
