/**
 * The profile record of the node database, as far as the `profile set`
 * command touches it. Every overridable field is an `Entry`: `None` is
 * "unset" (inherited / defaulted), `Some(v)` is "set to v".
 */
module Node {
  import opened Wrappers

  type Entry = Option<string>
  type BoolEntry = Option<bool>

  /** Tag maps, on the profile and on each network interface. */
  type TagMap = map<string, Entry>

  /** One network interface of a profile. */
  datatype NetDev = NetDev(
    device: Entry,
    netmask: Entry,
    gateway: Entry,
    hwType: Entry,
    onBoot: BoolEntry,
    primary: BoolEntry,
    tags: TagMap)

  type NetDevMap = map<string, NetDev>

  /** A freshly made interface: every field unset and an empty tag map. */
  const EmptyNetDev: NetDev := NetDev(None, None, None, None, None, None, map[])

  datatype Kernel = Kernel(overrideVersion: Entry, args: Entry)

  datatype Ipmi = Ipmi(
    netmask: Entry,
    port: Entry,
    gateway: Entry,
    userName: Entry,
    password: Entry,
    iface: Entry,
    write: BoolEntry)

  datatype Profile = Profile(
    id: string,
    comment: Entry,
    clusterName: Entry,
    containerName: Entry,
    init: Entry,
    root: Entry,
    assetKey: Entry,
    kernel: Kernel,
    ipxe: Entry,
    runtimeOverlay: Option<seq<string>>,
    systemOverlay: Option<seq<string>>,
    ipmi: Ipmi,
    discoverable: BoolEntry,
    netDevs: NetDevMap,
    tags: TagMap)
}
