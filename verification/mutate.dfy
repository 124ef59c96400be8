/**
 * The per-profile mutation engine: one request applied to one profile, in
 * the command's fixed order, giving the updated profile or the error that
 * stops the command.
 */
module ProfileMutation {
  import opened Wrappers
  import opened Node
  import opened KeyVal
  import opened TagOps
  import opened NetDevOps
  import opened SetRequest

  /** The add-tag arguments all carry a `=`; without one the command indexes past the split and crashes. */
  predicate RequestWellFormed(req: Request) {
    AllKeyed(req.tags) && AllKeyed(req.netTags)
  }

  // ---------------------------------------------------------------------
  // Scalar fields, overlays, IPMI write flag, discoverable
  // ---------------------------------------------------------------------

  function SetIfGiven(e: Entry, input: string): Entry {
    if input != "" then Some(input) else e
  }

  function SetSliceIfGiven(e: Option<seq<string>>, input: seq<string>): Option<seq<string>> {
    if |input| != 0 then Some(input) else e
  }

  /** `after` is the input when one was given, and `before` otherwise. */
  predicate Updated(before: Entry, input: string, after: Entry) {
    (input != "" ==> after == Some(input)) && (input == "" ==> after == before)
  }

  /** An overlay list is replaced as a whole by a non-empty input, and kept otherwise. */
  predicate OverlayUpdated(before: Option<seq<string>>, input: seq<string>, after: Option<seq<string>>) {
    (|input| != 0 ==> after == Some(input)) && (|input| == 0 ==> after == before)
  }

  /** Every scalar and overlay field of `q` is `p`'s, updated by its input. */
  predicate ScalarsUpdated(p: Profile, req: Request, q: Profile) {
    && Updated(p.comment, req.comment, q.comment)
    && Updated(p.clusterName, req.clusterName, q.clusterName)
    && Updated(p.containerName, req.container, q.containerName)
    && Updated(p.init, req.init, q.init)
    && Updated(p.root, req.root, q.root)
    && Updated(p.assetKey, req.assetKey, q.assetKey)
    && Updated(p.kernel.overrideVersion, req.kernelOverride, q.kernel.overrideVersion)
    && Updated(p.kernel.args, req.kernelArgs, q.kernel.args)
    && Updated(p.ipxe, req.ipxe, q.ipxe)
    && OverlayUpdated(p.runtimeOverlay, req.runtimeOverlay, q.runtimeOverlay)
    && OverlayUpdated(p.systemOverlay, req.systemOverlay, q.systemOverlay)
    && Updated(p.ipmi.netmask, req.ipmiNetmask, q.ipmi.netmask)
    && Updated(p.ipmi.port, req.ipmiPort, q.ipmi.port)
    && Updated(p.ipmi.gateway, req.ipmiGateway, q.ipmi.gateway)
    && Updated(p.ipmi.userName, req.ipmiUsername, q.ipmi.userName)
    && Updated(p.ipmi.password, req.ipmiPassword, q.ipmi.password)
    && Updated(p.ipmi.iface, req.ipmiInterface, q.ipmi.iface)
  }

  function ApplyScalars(p: Profile, req: Request): Profile {
    p.(comment := SetIfGiven(p.comment, req.comment),
       clusterName := SetIfGiven(p.clusterName, req.clusterName),
       containerName := SetIfGiven(p.containerName, req.container),
       init := SetIfGiven(p.init, req.init),
       root := SetIfGiven(p.root, req.root),
       assetKey := SetIfGiven(p.assetKey, req.assetKey),
       kernel := Kernel(SetIfGiven(p.kernel.overrideVersion, req.kernelOverride),
                        SetIfGiven(p.kernel.args, req.kernelArgs)),
       ipxe := SetIfGiven(p.ipxe, req.ipxe),
       runtimeOverlay := SetSliceIfGiven(p.runtimeOverlay, req.runtimeOverlay),
       systemOverlay := SetSliceIfGiven(p.systemOverlay, req.systemOverlay),
       ipmi := p.ipmi.(netmask := SetIfGiven(p.ipmi.netmask, req.ipmiNetmask),
                       port := SetIfGiven(p.ipmi.port, req.ipmiPort),
                       gateway := SetIfGiven(p.ipmi.gateway, req.ipmiGateway),
                       userName := SetIfGiven(p.ipmi.userName, req.ipmiUsername),
                       password := SetIfGiven(p.ipmi.password, req.ipmiPassword),
                       iface := SetIfGiven(p.ipmi.iface, req.ipmiInterface)))
  }

  /**
   * The IPMI write flag is assigned on every run. Its own input only counts
   * when it is exactly "yes"; the interface on-boot input turns it on as
   * well, for "y", "1" or "true" (but not "yes").
   */
  function IpmiWriteValue(req: Request): bool {
    req.ipmiWrite == "yes" || req.netOnBoot == "y" || req.netOnBoot == "1" || req.netOnBoot == "true"
  }

  /** The discoverable switch is applied first, the undiscoverable switch after it. */
  function ApplyDiscoverable(b: BoolEntry, discoverable: bool, undiscoverable: bool): BoolEntry {
    var afterOn := if discoverable then Some(true) else b;
    if undiscoverable then Some(false) else afterOn
  }

  /** Everything before the interface section; this part cannot fail. */
  function MutateFields(p: Profile, req: Request): (q: Profile)
    ensures q.id == p.id && q.netDevs == p.netDevs && q.tags == p.tags
    ensures ScalarsUpdated(p, req, q)
    ensures q.ipmi.write == Some(req.ipmiWrite == "yes" || req.netOnBoot in {"y", "1", "true"})
    ensures req.undiscoverable ==> q.discoverable == Some(false)
    ensures req.discoverable && !req.undiscoverable ==> q.discoverable == Some(true)
    ensures !req.discoverable && !req.undiscoverable ==> q.discoverable == p.discoverable
  {
    var scalars := ApplyScalars(p, req);
    var written := scalars.(ipmi := scalars.ipmi.(write := Some(IpmiWriteValue(req))));
    written.(discoverable := ApplyDiscoverable(p.discoverable, req.discoverable, req.undiscoverable))
  }

  // ---------------------------------------------------------------------
  // Interface section
  // ---------------------------------------------------------------------

  /** One string field of the named interface; `noName` is what an empty name ends in. */
  function NetString(nd: NetDevMap, name: string, input: string, f: NetField, noName: Error): Result<NetDevMap, Error> {
    if input == "" then Success(nd)
    else if name == "" then Failure(noName)
    else if name !in nd then Failure(NilNetDev(name))
    else Success(nd[name := SetField(nd[name], f, input)])
  }

  function NetOnBoot(nd: NetDevMap, name: string, input: string): Result<NetDevMap, Error> {
    if input == "" then Success(nd)
    else if name == "" then Failure(MissingNetName)
    else if name !in nd then Failure(NilNetDev(name))
    else Success(nd[name := nd[name].(onBoot := Some(IsYes(input)))])
  }

  function NetPrimary(nd: NetDevMap, name: string, input: string): Result<NetDevMap, Error> {
    if input == "" then Success(nd)
    else if name == "" then Failure(MissingNetName)
    else if name !in nd then Failure(NilNetDev(name))
    else if IsYes(input) then Success(MakePrimary(nd, name))
    else Success(nd[name := nd[name].(primary := Some(false))])
  }

  function NetDelete(nd: NetDevMap, name: string, del: bool): Result<NetDevMap, Error> {
    if !del then Success(nd)
    else if name == "" then Failure(MissingNetName)
    else if name !in nd then Failure(UnknownNetDev(name))
    else Success(nd - {name})
  }

  /** Some input of the interface section other than the name itself is given. */
  predicate NetInputGiven(req: Request) {
    || req.netDev != "" || req.netmask != "" || req.gateway != "" || req.netType != ""
    || req.netOnBoot != "" || req.netPrimary != "" || req.netDevDel
  }

  /** The named interface after the section, from its state `before` it. */
  predicate NamedUpdated(before: NetDev, req: Request, d: NetDev) {
    && Updated(before.device, req.netDev, d.device)
    && Updated(before.netmask, req.netmask, d.netmask)
    && Updated(before.gateway, req.gateway, d.gateway)
    && Updated(before.hwType, req.netType, d.hwType)
    && d.onBoot == (if req.netOnBoot == "" then before.onBoot else Some(IsYes(req.netOnBoot)))
    && d.primary == (if req.netPrimary == "" then before.primary else Some(IsYes(req.netPrimary)))
    && d.tags == before.tags
  }

  /**
   * The interface map after the section when a name is given: the named
   * interface exists (made empty if it was absent) unless it was deleted,
   * carries its updates, and every other interface is unchanged except that
   * a "yes" primary request marks it non-primary.
   */
  predicate NamedResult(nd: NetDevMap, req: Request, q: NetDevMap) {
    var name := req.netName;
    var before := if name in nd then nd[name] else EmptyNetDev;
    && q.Keys == (if req.netDevDel then nd.Keys - {name} else nd.Keys + {name})
    && (forall n :: n in q && n != name ==>
          && n in nd
          && OnlyPrimaryDiffers(nd[n], q[n])
          && q[n].primary == (if IsYes(req.netPrimary) then Some(false) else nd[n].primary))
    && (name in q ==> NamedUpdated(before, req, q[name]))
  }

  /** The four string fields of the named interface, in the command's order. */
  function NetStrings(nd: NetDevMap, req: Request): Result<NetDevMap, Error> {
    var name := req.netName;
    var nd1 :- NetString(nd, name, req.netDev, Device, MissingNetName);
    var nd2 :- NetString(nd1, name, req.netmask, Netmask, MissingNetName);
    var nd3 :- NetString(nd2, name, req.gateway, Gateway, GatewayExit);
    NetString(nd3, name, req.netType, HwType, MissingNetName)
  }

  /** The on-boot and primary inputs. */
  function NetFlags(nd: NetDevMap, req: Request): Result<NetDevMap, Error> {
    var nd5 :- NetOnBoot(nd, req.netName, req.netOnBoot);
    NetPrimary(nd5, req.netName, req.netPrimary)
  }

  /** The interface section, in the command's order. */
  function MutateNetDevs(nd: NetDevMap, req: Request): (r: Result<NetDevMap, Error>)
    ensures r.Failure? <==> req.netName == "" && NetInputGiven(req)
    ensures r.Failure? ==> r.error in {MissingNetName, GatewayExit}
    ensures r.Failure? ==> (r.error == GatewayExit <==> req.netDev == "" && req.netmask == "" && req.gateway != "")
    ensures req.netName == "" && !NetInputGiven(req) ==> r == Success(nd)
  {
    var nd0 := EnsureNetDev(nd, req.netName);
    var nd4 :- NetStrings(nd0, req);
    var nd6 :- NetFlags(nd4, req);
    NetDelete(nd6, req.netName, req.netDevDel)
  }

  /** With the named interface present, the string steps update just that interface. */
  lemma NamedStringsSpec(nd: NetDevMap, req: Request)
    requires req.netName != "" && req.netName in nd
    ensures var name := req.netName;
      var d := nd[name];
      NetStrings(nd, req) == Success(nd[name := d.(
           device := (if req.netDev == "" then d.device else Some(req.netDev)),
           netmask := (if req.netmask == "" then d.netmask else Some(req.netmask)),
           gateway := (if req.gateway == "" then d.gateway else Some(req.gateway)),
           hwType := (if req.netType == "" then d.hwType else Some(req.netType)))])
  {
    var name := req.netName;
    var d := nd[name];
    var d1 := if req.netDev == "" then d else d.(device := Some(req.netDev));
    var d2 := if req.netmask == "" then d1 else d1.(netmask := Some(req.netmask));
    var d3 := if req.gateway == "" then d2 else d2.(gateway := Some(req.gateway));
    var d4 := if req.netType == "" then d3 else d3.(hwType := Some(req.netType));
    assert nd[name := d] == nd;
    assert NetString(nd, name, req.netDev, Device, MissingNetName) == Success(nd[name := d1]);
    assert nd[name := d1][name := d2] == nd[name := d2];
    assert NetString(nd[name := d1], name, req.netmask, Netmask, MissingNetName) == Success(nd[name := d2]);
    assert nd[name := d2][name := d3] == nd[name := d3];
    assert NetString(nd[name := d2], name, req.gateway, Gateway, GatewayExit) == Success(nd[name := d3]);
    assert nd[name := d3][name := d4] == nd[name := d4];
    assert NetString(nd[name := d3], name, req.netType, HwType, MissingNetName) == Success(nd[name := d4]);
  }

  /** With the named interface present, the flag steps set its on-boot and primary flags, and a "yes" primary clears every other one. */
  lemma NamedFlagsSpec(nd: NetDevMap, req: Request)
    requires req.netName != "" && req.netName in nd
    ensures NetFlags(nd, req).Success?
    ensures var name := req.netName;
      var r := NetFlags(nd, req).value;
      && r.Keys == nd.Keys
      && r[name] == nd[name].(
           onBoot := (if req.netOnBoot == "" then nd[name].onBoot else Some(IsYes(req.netOnBoot))),
           primary := (if req.netPrimary == "" then nd[name].primary else Some(IsYes(req.netPrimary))))
      && (forall n :: n in nd && n != name ==>
            && OnlyPrimaryDiffers(nd[n], r[n])
            && r[n].primary == (if IsYes(req.netPrimary) then Some(false) else nd[n].primary))
  {
    var name := req.netName;
    var nd5 := NetOnBoot(nd, name, req.netOnBoot).value;
    assert nd5.Keys == nd.Keys && forall n :: n in nd && n != name ==> nd5[n] == nd[n];
  }

  /** The named interface and its siblings after every step but the deletion. */
  lemma NamedBeforeDelete(nd: NetDevMap, req: Request)
    requires req.netName != ""
    ensures var name := req.netName;
      var nd0 := EnsureNetDev(nd, name);
      && NetStrings(nd0, req).Success?
      && NetFlags(NetStrings(nd0, req).value, req).Success?
      && var nd6 := NetFlags(NetStrings(nd0, req).value, req).value;
      && nd6.Keys == nd.Keys + {name}
      && NamedUpdated(if name in nd then nd[name] else EmptyNetDev, req, nd6[name])
      && (forall n :: n in nd6 && n != name ==>
            && n in nd
            && OnlyPrimaryDiffers(nd[n], nd6[n])
            && nd6[n].primary == (if IsYes(req.netPrimary) then Some(false) else nd[n].primary))
  {
    var name := req.netName;
    var nd0 := EnsureNetDev(nd, name);
    NamedStringsSpec(nd0, req);
    var nd4 := NetStrings(nd0, req).value;
    assert nd4.Keys == nd.Keys + {name};
    assert forall n :: n in nd4 && n != name ==> n in nd && nd4[n] == nd[n];
    NamedFlagsSpec(nd4, req);
  }

  /**
   * With an interface name given the section never fails: the name is
   * created first, so neither the nil dereference nor the "network name
   * doesn't exist" check can be reached. The result is `NamedResult`.
   */
  lemma {:induction false} NamedSectionSpec(nd: NetDevMap, req: Request)
    requires req.netName != ""
    ensures MutateNetDevs(nd, req).Success?
    ensures NamedResult(nd, req, MutateNetDevs(nd, req).value)
  {
    var name := req.netName;
    var nd0 := EnsureNetDev(nd, name);
    NamedBeforeDelete(nd, req);
    var nd6 := NetFlags(NetStrings(nd0, req).value, req).value;
    assert MutateNetDevs(nd, req) == NetDelete(nd6, name, req.netDevDel);
  }

  // ---------------------------------------------------------------------
  // Tag sections
  // ---------------------------------------------------------------------

  /** The profile's add-tag loop, then its delete-tag loop. */
  function MutateProfileTags(tags: TagMap, req: Request): (r: Result<TagMap, Error>)
    requires AllKeyed(req.tags)
    ensures r.Success? <==> ValidDeletes(AddTags(tags, req.tags), req.delTags)
    ensures r.Failure? ==> r.error.UnknownTag? && r.error.key in req.delTags
    ensures r.Failure? ==> FirstMissing(AddTags(tags, req.tags), req.delTags, r.error.key)
  {
    AddThenDeleteSpec(tags, req.tags, req.delTags);
    var t := AddThenDelete(tags, req.tags, req.delTags);
    if t.Failure? then Failure(UnknownTag(t.error)) else Success(t.value)
  }

  /** The named interface's add-tag loop, then its delete-tag loop. */
  function MutateNetTags(nd: NetDevMap, req: Request): (r: Result<NetDevMap, Error>)
    requires AllKeyed(req.netTags)
    ensures |req.netTags| == 0 && |req.netDelTags| == 0 ==> r == Success(nd)
    ensures (|req.netTags| > 0 || |req.netDelTags| > 0) && req.netName !in nd ==> r == Failure(NilNetDev(req.netName))
    ensures r.Failure? ==> r.error.NilNetDev? || (r.error.UnknownNetTag? && r.error.key in req.netDelTags)
    ensures (|req.netTags| > 0 || |req.netDelTags| > 0) && req.netName in nd ==>
      (r.Failure? <==> !ValidDeletes(AddTags(nd[req.netName].tags, req.netTags), req.netDelTags))
    ensures r.Failure? && r.error.UnknownNetTag? ==>
      && req.netName in nd && r.error.name == req.netName
      && FirstMissing(AddTags(nd[req.netName].tags, req.netTags), req.netDelTags, r.error.key)
    ensures r.Success? ==> r.value.Keys == nd.Keys
    ensures r.Success? ==> forall n :: n in nd ==> OnlyTagsDiffer(nd[n], r.value[n])
    ensures r.Success? ==> forall n :: n in nd && n != req.netName ==> r.value[n] == nd[n]
  {
    var name := req.netName;
    if |req.netTags| == 0 && |req.netDelTags| == 0 then Success(nd)
    else if name !in nd then Failure(NilNetDev(name))
    else
      AddThenDeleteSpec(nd[name].tags, req.netTags, req.netDelTags);
      var t := AddThenDelete(nd[name].tags, req.netTags, req.netDelTags);
      if t.Failure? then Failure(UnknownNetTag(name, t.error))
      else Success(nd[name := nd[name].(tags := t.value)])
  }

  // ---------------------------------------------------------------------
  // The whole loop body
  // ---------------------------------------------------------------------

  /** One request applied to one profile. */
  function Mutate(p: Profile, req: Request): (r: Result<Profile, Error>)
    requires RequestWellFormed(req)
    ensures r.Success? ==> r.value.id == p.id
    ensures r.Success? ==> ScalarsUpdated(p, req, r.value)
    ensures r.Success? ==> r.value.ipmi.write == Some(req.ipmiWrite == "yes" || req.netOnBoot in {"y", "1", "true"})
    ensures r.Success? && req.undiscoverable ==> r.value.discoverable == Some(false)
    ensures r.Success? && req.discoverable && !req.undiscoverable ==> r.value.discoverable == Some(true)
    ensures r.Success? && !req.discoverable && !req.undiscoverable ==> r.value.discoverable == p.discoverable
    ensures req.netName == "" && NetInputGiven(req) ==> r.Failure? && r.error in {MissingNetName, GatewayExit}
    ensures r.Failure? ==> IsValidationError(r.error) && !r.error.UnknownNetDev?
  {
    var q := MutateFields(p, req);
    var nd :- MutateNetDevs(q.netDevs, req);
    var tags :- MutateProfileTags(q.tags, req);
    var nd' :- MutateNetTags(nd, req);
    Success(q.(netDevs := nd', tags := tags))
  }
}
