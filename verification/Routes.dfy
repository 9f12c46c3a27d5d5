/** Routes as seen in the cluster, and the label a host pattern stands for in a zone. */
module Routes {
  import opened Core
  import opened Text

  /** One hostname requirement of a route: an exact host, `^[class]+\.suffix$`, or some other regexp. */
  datatype HostPattern = Exact(host: string) | CatchAll(suffix: string) | Other

  datatype ObservedRoute = ObservedRoute(
    uid: string, namespace: string, name: string, kind: string, rule: string, priority: int,
    hosts: seq<HostPattern>, service: string, managed: bool)
  {
    function Ref(): string {
      namespace + "/" + name
    }

    /** Explicit priority, else the length of the rule. */
    function EffectivePriority(): int {
      if priority != 0 then priority else |rule|
    }
  }

  /** The registry label a pattern sights in a zone, if any. */
  function LabelOf(h: HostPattern, zone: string): Option<string> {
    match h
    case Exact(host) => LabelForZone(host, zone)
    case CatchAll(suffix) =>
      if suffix != zone && HasSuffix(suffix, "." + zone)
        then Some("*." + TrimSuffix(suffix, "." + zone))
      else None
    case Other => None
  }

  /** The hosts behind a label: "@" is the zone itself, another label stands before the zone, and a starred one is
      what a catch-all below the zone covers. */
  lemma LabelMeans(h: HostPattern, zone: string, name: string)
    ensures LabelOf(h, zone) == Some(name) <==>
              match h
              case Exact(host) =>
                if Lower(host) == zone then name == "@" else Lower(host) == name + ("." + zone)
              case CatchAll(suffix) => exists base :: name == "*." + base && suffix == base + ("." + zone)
              case Other => false
  {
    match h
    case Exact(host) =>
      if Lower(host) != zone {
        SuffixIff(Lower(host), name, "." + zone);
      }
    case CatchAll(suffix) =>
      if LabelOf(h, zone) == Some(name) {
        SuffixSplit(suffix, "." + zone);
        assert name == "*." + TrimSuffix(suffix, "." + zone);
      }
      if base :| name == "*." + base && suffix == base + ("." + zone) {
        SuffixOfConcat(base, "." + zone);
      }
    case Other =>
  }
}
