/** Properties of one request applied to one profile. */
module MutateProps {
  import opened Wrappers
  import opened Node
  import opened KeyVal
  import opened TagOps
  import opened NetDevOps
  import opened SetRequest
  import opened ProfileMutation

  /** Without scalar, overlay, IPMI-write or discoverable inputs, only the IPMI write flag moves, to false. */
  lemma UntouchedFields(p: Profile, req: Request)
    requires req.comment == "" && req.clusterName == "" && req.container == "" && req.init == ""
    requires req.root == "" && req.assetKey == "" && req.kernelOverride == "" && req.kernelArgs == ""
    requires req.ipxe == "" && req.runtimeOverlay == [] && req.systemOverlay == []
    requires req.ipmiNetmask == "" && req.ipmiPort == "" && req.ipmiGateway == ""
    requires req.ipmiUsername == "" && req.ipmiPassword == "" && req.ipmiInterface == ""
    requires req.ipmiWrite == "" && req.netOnBoot == "" && !req.discoverable && !req.undiscoverable
    ensures MutateFields(p, req) == p.(ipmi := p.ipmi.(write := Some(false)))
  {
    var q := MutateFields(p, req);
    assert q.kernel == p.kernel;
    assert q.ipmi == p.ipmi.(write := Some(false));
    assert q.comment == p.comment && q.clusterName == p.clusterName && q.containerName == p.containerName;
    assert q.init == p.init && q.root == p.root && q.assetKey == p.assetKey && q.ipxe == p.ipxe;
    assert q.runtimeOverlay == p.runtimeOverlay && q.systemOverlay == p.systemOverlay;
  }

  /** Empty tag lists leave a tag map alone. */
  lemma UntouchedTags(tags: TagMap, req: Request)
    requires req.tags == [] && req.delTags == []
    ensures MutateProfileTags(tags, req) == Success(tags)
  {
    assert AddTags(tags, []) == tags;
  }

  /**
   * A request that asks for nothing still rewrites the IPMI write flag to
   * false; every other part of the profile is left as it was.
   */
  lemma MutateEmptyRequest(p: Profile)
    ensures RequestWellFormed(EmptyRequest)
    ensures Mutate(p, EmptyRequest) == Success(p.(ipmi := p.ipmi.(write := Some(false))))
  {
    UntouchedFields(p, EmptyRequest);
    assert MutateNetDevs(p.netDevs, EmptyRequest) == Success(p.netDevs);
    UntouchedTags(p.tags, EmptyRequest);
  }

  /**
   * Deleting an interface that is not there, by name, succeeds and leaves
   * the interfaces as they were: the name is created first and then
   * deleted again, so the "doesn't exist" error is never raised.
   */
  lemma DeleteAbsentInterface(p: Profile, name: string)
    requires name != "" && name !in p.netDevs
    ensures RequestWellFormed(EmptyRequest.(netName := name, netDevDel := true))
    ensures Mutate(p, EmptyRequest.(netName := name, netDevDel := true))
         == Success(p.(ipmi := p.ipmi.(write := Some(false))))
  {
    var req := EmptyRequest.(netName := name, netDevDel := true);
    NamedSectionSpec(p.netDevs, req);
    var nd := MutateNetDevs(p.netDevs, req).value;
    assert nd == p.netDevs;
    UntouchedFields(p, req);
    UntouchedTags(p.tags, req);
  }

  /** The interface map after a successful run is the section's result with only tags changed. */
  lemma NetTagsOnlyTouchTags(p: Profile, req: Request)
    requires RequestWellFormed(req)
    requires Mutate(p, req).Success?
    ensures MutateNetDevs(p.netDevs, req).Success?
    ensures var nd := MutateNetDevs(p.netDevs, req).value;
      var r := Mutate(p, req).value.netDevs;
      && r.Keys == nd.Keys
      && (forall n :: n in nd ==> OnlyTagsDiffer(nd[n], r[n]))
      && (forall n :: n in nd && n != req.netName ==> r[n] == nd[n])
  {
  }

  /**
   * After a "yes" primary request on a named interface that is not also
   * deleted, exactly one interface is primary: the named one.
   */
  lemma {:induction false} PrimaryIsUnique(p: Profile, req: Request)
    requires RequestWellFormed(req)
    requires req.netName != "" && IsYes(req.netPrimary) && !req.netDevDel
    requires Mutate(p, req).Success?
    ensures req.netName in Mutate(p, req).value.netDevs
    ensures var r := Mutate(p, req).value.netDevs;
      forall n :: n in r ==> (r[n].primary == Some(true) <==> n == req.netName)
  {
    NamedSectionSpec(p.netDevs, req);
    NetTagsOnlyTouchTags(p, req);
  }

  /**
   * With a name given and no deletion, the named interface exists afterwards
   * and holds its updates; every other interface keeps all its fields but
   * the primary flag, which only a "yes" primary request clears.
   */
  lemma {:induction false} NamedInterfaceResult(p: Profile, req: Request)
    requires RequestWellFormed(req)
    requires req.netName != "" && !req.netDevDel
    requires Mutate(p, req).Success?
    ensures var r := Mutate(p, req).value.netDevs;
      var name := req.netName;
      var before := if name in p.netDevs then p.netDevs[name] else EmptyNetDev;
      && r.Keys == p.netDevs.Keys + {name}
      && NamedUpdated(before, req, r[name].(tags := before.tags))
      && (forall n :: n in r && n != name ==>
            && n in p.netDevs
            && OnlyPrimaryDiffers(p.netDevs[n], r[n])
            && r[n].primary == (if IsYes(req.netPrimary) then Some(false) else p.netDevs[n].primary))
  {
    NamedSectionSpec(p.netDevs, req);
    NetTagsOnlyTouchTags(p, req);
  }

  /**
   * The nil interface dereference of the interface-tag loops happens only
   * when interface tags are requested and the interface is missing at that
   * point: the name is empty and not a key, or the interface was just deleted.
   */
  lemma {:induction false} NilNetDevOnlyFromNetTags(p: Profile, req: Request)
    requires RequestWellFormed(req)
    requires Mutate(p, req).Failure? && Mutate(p, req).error.NilNetDev?
    ensures |req.netTags| > 0 || |req.netDelTags| > 0
    ensures (req.netName == "" && "" !in p.netDevs) || (req.netName != "" && req.netDevDel)
  {
    if req.netName != "" {
      NamedSectionSpec(p.netDevs, req);
    }
  }

  /**
   * The profile's tags after a successful run, key by key: a key is present
   * iff it was there or was added, and it was not deleted; an added key
   * holds the last value given for it.
   */
  lemma {:induction false} ProfileTagsResult(p: Profile, req: Request)
    requires RequestWellFormed(req)
    requires Mutate(p, req).Success?
    ensures var r := Mutate(p, req).value.tags;
      forall k ::
        && (k in r <==> (k in p.tags || LastValue(req.tags, k).Some?) && k !in req.delTags)
        && (k in r ==> r[k] == if LastValue(req.tags, k).Some? then Some(LastValue(req.tags, k).value) else p.tags[k])
  {
    AddThenDeleteSpec(p.tags, req.tags, req.delTags);
  }

  /**
   * Once the interface section has passed, the run stops on an unknown
   * profile tag exactly when the delete list is not valid for the map the
   * add loop left: a key that is absent, or a key named twice.
   */
  lemma {:induction false} UnknownTagExactly(p: Profile, req: Request)
    requires RequestWellFormed(req)
    requires MutateNetDevs(p.netDevs, req).Success?
    ensures (Mutate(p, req).Failure? && Mutate(p, req).error.UnknownTag?)
        <==> !ValidDeletes(AddTags(p.tags, req.tags), req.delTags)
  {
    AddThenDeleteSpec(p.tags, req.tags, req.delTags);
  }

  /**
   * The interface-tag counterpart: with an interface name given and the
   * profile tags passed, the run stops on an unknown interface tag exactly
   * when the interface survives the section, interface tags are requested,
   * and the delete list is not valid for the tags the add loop left (those
   * the interface had, or none when it was just created); the key reported
   * is the first one absent at its turn.
   */
  lemma {:induction false} UnknownNetTagExactly(p: Profile, req: Request)
    requires RequestWellFormed(req)
    requires req.netName != ""
    requires MutateProfileTags(p.tags, req).Success?
    ensures var prior := if req.netName in p.netDevs then p.netDevs[req.netName].tags else map[];
      (Mutate(p, req).Failure? && Mutate(p, req).error.UnknownNetTag?)
      <==> && !req.netDevDel
           && (|req.netTags| > 0 || |req.netDelTags| > 0)
           && !ValidDeletes(AddTags(prior, req.netTags), req.netDelTags)
    ensures var prior := if req.netName in p.netDevs then p.netDevs[req.netName].tags else map[];
      Mutate(p, req).Failure? && Mutate(p, req).error.UnknownNetTag? ==>
        FirstMissing(AddTags(prior, req.netTags), req.netDelTags, Mutate(p, req).error.key)
  {
    NamedSectionSpec(p.netDevs, req);
    var nd := MutateNetDevs(p.netDevs, req).value;
    var before := if req.netName in p.netDevs then p.netDevs[req.netName] else EmptyNetDev;
    NetTagsDecideFailure(p, req);
    if !req.netDevDel {
      assert req.netName in nd && nd[req.netName].tags == before.tags;
    } else {
      assert req.netName !in nd;
    }
  }

  /**
   * The named interface's tags after a successful run follow the same
   * upsert-then-delete rule, starting from the tags it had (none if it was
   * created by this request).
   */
  lemma {:induction false} NetTagsResult(p: Profile, req: Request)
    requires RequestWellFormed(req)
    requires req.netName != "" && !req.netDevDel
    requires Mutate(p, req).Success?
    ensures req.netName in Mutate(p, req).value.netDevs
    ensures var r := Mutate(p, req).value.netDevs[req.netName].tags;
      var prior := if req.netName in p.netDevs then p.netDevs[req.netName].tags else map[];
      forall k ::
        && (k in r <==> (k in prior || LastValue(req.netTags, k).Some?) && k !in req.netDelTags)
        && (k in r ==> r[k] == if LastValue(req.netTags, k).Some? then Some(LastValue(req.netTags, k).value) else prior[k])
  {
    NamedSectionSpec(p.netDevs, req);
    var nd := MutateNetDevs(p.netDevs, req).value;
    var before := if req.netName in p.netDevs then p.netDevs[req.netName] else EmptyNetDev;
    assert nd[req.netName].tags == before.tags;
    MutateSections(p, req);
    NetTagsSectionTags(nd, req);
  }

  /** The interface-tag section alone: the named interface's tags follow the add-then-delete rule. */
  lemma NetTagsSectionTags(nd: NetDevMap, req: Request)
    requires AllKeyed(req.netTags)
    requires req.netName in nd
    requires MutateNetTags(nd, req).Success?
    ensures req.netName in MutateNetTags(nd, req).value
    ensures var r := MutateNetTags(nd, req).value[req.netName].tags;
      var prior := nd[req.netName].tags;
      forall k ::
        && (k in r <==> (k in prior || LastValue(req.netTags, k).Some?) && k !in req.netDelTags)
        && (k in r ==> r[k] == if LastValue(req.netTags, k).Some? then Some(LastValue(req.netTags, k).value) else prior[k])
  {
    AddThenDeleteSpec(nd[req.netName].tags, req.netTags, req.netDelTags);
  }

  /**
   * Deleting a tag of an interface that does not exist yet, by name, ends in
   * the unknown interface-tag error: the interface is created empty first,
   * so the missing tag, not the missing interface, is what gets reported.
   */
  lemma NetTagDeleteOnAbsentInterface(p: Profile, name: string, key: string)
    requires name != "" && name !in p.netDevs
    ensures RequestWellFormed(EmptyRequest.(netName := name, netDelTags := [key]))
    ensures Mutate(p, EmptyRequest.(netName := name, netDelTags := [key])) == Failure(UnknownNetTag(name, key))
  {
    var req := EmptyRequest.(netName := name, netDelTags := [key]);
    NamedSectionSpec(p.netDevs, req);
    var nd := MutateNetDevs(p.netDevs, req).value;
    assert name in nd && nd[name].tags == map[];
    UntouchedTags(p.tags, req);
    assert AddTags(nd[name].tags, []) == map[];
  }

  /** Once the interface section and the profile tags have passed, the interface-tag section alone decides failure. */
  lemma NetTagsDecideFailure(p: Profile, req: Request)
    requires RequestWellFormed(req)
    requires MutateNetDevs(p.netDevs, req).Success?
    requires MutateProfileTags(p.tags, req).Success?
    ensures Mutate(p, req).Failure? <==> MutateNetTags(MutateNetDevs(p.netDevs, req).value, req).Failure?
    ensures Mutate(p, req).Failure? ==> Mutate(p, req).error == MutateNetTags(MutateNetDevs(p.netDevs, req).value, req).error
  {
  }

  /** The run body as its four sections, one after the other. */
  lemma MutateSections(p: Profile, req: Request)
    requires RequestWellFormed(req)
    requires MutateNetDevs(p.netDevs, req).Success?
    requires MutateProfileTags(p.tags, req).Success?
    requires MutateNetTags(MutateNetDevs(p.netDevs, req).value, req).Success?
    ensures Mutate(p, req) == Success(MutateFields(p, req).(
      netDevs := MutateNetTags(MutateNetDevs(p.netDevs, req).value, req).value,
      tags := MutateProfileTags(p.tags, req).value))
  {
  }

  /** The request of the comment-and-tag scenario: comment "test", tag rack=42, confirmed. */
  const CommentTagRequest: Request := EmptyRequest.(comment := "test", tags := ["rack=42"], yes := true)

  /** One `key=value` argument and no deletions: the tag map gains exactly that entry. */
  lemma {:induction false} SingleTagAdd(m: TagMap, k: string, v: string)
    requires '=' !in k
    ensures AllKeyed([k + "=" + v])
    ensures AddThenDelete(m, [k + "=" + v], []) == Success(m[k := Some(v)])
  {
    var t := k + "=" + v;
    SplitJoin(k, v);
    assert Upsert(m, t) == m[k := Some(v)];
    assert [t][0] == t && [t][1..] == [];
    assert AddTags(m, [t]) == AddTags(m[k := Some(v)], []);
  }

  /** Setting the comment to "test" and adding rack=42 gives a profile with both. */
  lemma CommentAndTagMutation(p: Profile)
    ensures RequestWellFormed(CommentTagRequest)
    ensures var r := Mutate(p, CommentTagRequest);
      && r.Success?
      && r.value.id == p.id
      && r.value.comment == Some("test")
      && "rack" in r.value.tags && r.value.tags["rack"] == Some("42")
  {
    assert "rack=42" == "rack" + "=" + "42";
    SingleTagAdd(p.tags, "rack", "42");
    assert MutateProfileTags(p.tags, CommentTagRequest) == Success(p.tags["rack" := Some("42")]);
    MutateSections(p, CommentTagRequest);
  }
}
