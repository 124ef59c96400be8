/** Operations on a profile's map of network interfaces. */
module NetDevOps {
  import opened Wrappers
  import opened Node

  /** The four string fields of an interface the command can set. */
  datatype NetField = Device | Netmask | Gateway | HwType

  function SetField(d: NetDev, f: NetField, v: string): NetDev {
    match f
    case Device => d.(device := Some(v))
    case Netmask => d.(netmask := Some(v))
    case Gateway => d.(gateway := Some(v))
    case HwType => d.(hwType := Some(v))
  }

  /** `b` equals `a` except, possibly, in its primary flag. */
  predicate OnlyPrimaryDiffers(a: NetDev, b: NetDev) {
    b == a.(primary := b.primary)
  }

  /** `b` equals `a` except, possibly, in its tag map. */
  predicate OnlyTagsDiffer(a: NetDev, b: NetDev) {
    b == a.(tags := b.tags)
  }

  /** A non-empty interface name not yet in the map is added as an empty interface. */
  function EnsureNetDev(nd: NetDevMap, name: string): (r: NetDevMap)
    ensures name == "" ==> r == nd
    ensures name != "" ==> r.Keys == nd.Keys + {name}
    ensures name != "" && name !in nd ==> r[name] == EmptyNetDev && r[name].tags == map[]
    ensures forall n :: n in nd ==> n in r && r[n] == nd[n]
  {
    if name != "" && name !in nd then nd[name := EmptyNetDev] else nd
  }

  /** Marks every interface non-primary, then the named one primary. */
  function MakePrimary(nd: NetDevMap, name: string): (r: NetDevMap)
    requires name in nd
    ensures r.Keys == nd.Keys
    ensures forall n :: n in r ==> (r[n].primary == Some(true) <==> n == name)
    ensures forall n :: n in r && n != name ==> r[n].primary == Some(false)
    ensures forall n :: n in r ==> OnlyPrimaryDiffers(nd[n], r[n])
  {
    var cleared := map n | n in nd :: nd[n].(primary := Some(false));
    cleared[name := cleared[name].(primary := Some(true))]
  }
}
