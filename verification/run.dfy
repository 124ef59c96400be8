/**
 * The whole `profile set` run: selection, the mutation loop with the
 * store's per-profile update, and the confirm / persist / reload step.
 * The store, the prompt and the daemon are represented by their answers.
 */
module Run {
  import opened Wrappers
  import opened Node
  import opened SetRequest
  import opened ProfileMutation
  import opened Selection
  import opened MutateProps

  /**
   * What the collaborators answer: the store's name matcher, whether the
   * store accepts an updated profile, the operator's reply to the prompt,
   * whether persisting works and whether the daemon reload works.
   */
  datatype Env = Env(
    matches: (string, string) -> bool,
    updateOk: Profile -> bool,
    answer: string,
    persistOk: bool,
    reloadOk: bool)

  datatype CommitOutcome = CommitOutcome(
    persistCalled: bool,
    reloadCalled: bool,
    reloadWarned: bool,
    result: Option<Error>)

  /**
   * The confirm / persist / reload step. Persisting happens when the
   * yes-switch is on or the operator answers "y" or "yes"; a failed persist
   * is the run's error; a failed reload is only warned about.
   */
  function Commit(yes: bool, answer: string, persistOk: bool, reloadOk: bool): (c: CommitOutcome)
    ensures c.persistCalled <==> yes || answer in {"y", "yes"}
    ensures c.reloadCalled <==> c.persistCalled && persistOk
    ensures c.reloadWarned <==> c.reloadCalled && !reloadOk
    ensures c.result == (if c.persistCalled && !persistOk then Some(PersistFailed) else None)
  {
    var confirmed := yes || answer == "y" || answer == "yes";
    if !confirmed then CommitOutcome(false, false, false, None)
    else if !persistOk then CommitOutcome(true, false, false, Some(PersistFailed))
    else CommitOutcome(true, true, !reloadOk, None)
  }

  /** One turn of the loop: mutate, then hand the profile to the store's update. */
  function Process(p: Profile, req: Request, updateOk: Profile -> bool): (r: Result<Profile, Error>)
    requires RequestWellFormed(req)
    ensures r.Success? ==> r.value.id == p.id && updateOk(r.value)
    ensures r.Failure? ==> IsValidationError(r.error) || r.error == UpdateFailed(p.id)
    ensures Mutate(p, req).Failure? ==> r == Failure(Mutate(p, req).error)
    ensures Mutate(p, req).Success? ==>
      r == (if updateOk(Mutate(p, req).value) then Success(Mutate(p, req).value) else Failure(UpdateFailed(p.id)))
  {
    var q :- Mutate(p, req);
    if updateOk(q) then Success(q) else Failure(UpdateFailed(q.id))
  }

  /**
   * The loop over the targets, one `step` per target in order. It gets
   * through iff every step does, and then yields the steps' profiles in
   * order; otherwise its error is that of the first step that fails.
   */
  function Loop(targets: seq<Profile>, step: Profile -> Result<Profile, Error>): (r: Result<seq<Profile>, Error>)
    ensures r.Success? <==> forall i :: 0 <= i < |targets| ==> step(targets[i]).Success?
    ensures r.Success? ==> |r.value| == |targets|
    ensures r.Success? ==> forall i :: 0 <= i < |targets| ==> r.value[i] == step(targets[i]).value
    ensures r.Failure? ==>
      exists i :: (0 <= i < |targets| && step(targets[i]) == Failure(r.error)
                   && forall j :: 0 <= j < i ==> step(targets[j]).Success?)
    decreases |targets|
  {
    if |targets| == 0 then Success([])
    else
      var head := step(targets[0]);
      if head.Failure? then Failure(head.error)
      else
        var rest := Loop(targets[1..], step);
        assert forall j :: 1 <= j < |targets| ==> targets[j] == targets[1..][j - 1];
        if rest.Failure? then Failure(rest.error)
        else Success([head.value] + rest.value)
  }

  /** The command's loop: every target mutated and handed to the store, under its own id. */
  function ProcessAll(targets: seq<Profile>, req: Request, updateOk: Profile -> bool): (r: Result<seq<Profile>, Error>)
    requires RequestWellFormed(req)
    ensures r.Success? <==> forall i :: 0 <= i < |targets| ==> Process(targets[i], req, updateOk).Success?
    ensures r.Success? ==> |r.value| == |targets|
    ensures r.Success? ==> forall i :: 0 <= i < |targets| ==>
      r.value[i] == Process(targets[i], req, updateOk).value && r.value[i].id == targets[i].id
    ensures r.Failure? ==>
      exists i :: (0 <= i < |targets| && Process(targets[i], req, updateOk) == Failure(r.error)
                   && forall j :: 0 <= j < i ==> Process(targets[j], req, updateOk).Success?)
  {
    Loop(targets, p => Process(p, req, updateOk))
  }

  datatype RunOutcome = RunOutcome(
    written: seq<Profile>,
    persistCalled: bool,
    reloadCalled: bool,
    reloadWarned: bool,
    result: Option<Error>)

  /** The loop fails only with a validation error or the store's update error. */
  lemma ProcessAllErrorKind(targets: seq<Profile>, req: Request, updateOk: Profile -> bool)
    requires RequestWellFormed(req)
    ensures ProcessAll(targets, req, updateOk).Failure? ==>
      IsValidationError(ProcessAll(targets, req, updateOk).error) || ProcessAll(targets, req, updateOk).error.UpdateFailed?
  {
    var r := ProcessAll(targets, req, updateOk);
    if r.Failure? {
      var i :| 0 <= i < |targets| && Process(targets[i], req, updateOk) == Failure(r.error);
    }
  }

  /** What the run ends in once the loop's outcome is known. */
  function Finish(staged: Result<seq<Profile>, Error>, yes: bool, env: Env): (o: RunOutcome)
    ensures o.persistCalled <==> staged.Success? && (yes || env.answer in {"y", "yes"})
    ensures staged.Failure? ==> o.result == Some(staged.error) && o.written == []
    ensures staged.Success? ==> o.result == (if o.persistCalled && !env.persistOk then Some(PersistFailed) else None)
    ensures o.reloadCalled <==> o.persistCalled && env.persistOk
    ensures o.written == (if o.reloadCalled then staged.value else [])
  {
    if staged.Failure? then RunOutcome([], false, false, false, Some(staged.error))
    else
      var c := Commit(yes, env.answer, env.persistOk, env.reloadOk);
      RunOutcome(if c.reloadCalled then staged.value else [], c.persistCalled, c.reloadCalled, c.reloadWarned, c.result)
  }

  /** The loop's outcome for a run: the selection error, or the loop over the selected profiles. */
  function Staged(profiles: seq<Profile>, args: seq<string>, req: Request, env: Env): Result<seq<Profile>, Error>
    requires RequestWellFormed(req)
  {
    var targets :- Select(profiles, args, req.all, env.matches);
    ProcessAll(targets, req, env.updateOk)
  }

  /**
   * The command from start to end; `result == None` is the command
   * returning nil. A selection or loop error is the result and nothing is
   * persisted; otherwise persisting happens iff the run is confirmed.
   */
  function RunSet(profiles: seq<Profile>, args: seq<string>, req: Request, env: Env): (o: RunOutcome)
    requires RequestWellFormed(req)
    ensures |profiles| == 0 ==> o.result == Some(NoProfiles) && !o.persistCalled
    ensures o.persistCalled <==> Staged(profiles, args, req, env).Success? && (req.yes || env.answer in {"y", "yes"})
    ensures Staged(profiles, args, req, env).Failure? ==>
      o.result == Some(Staged(profiles, args, req, env).error) && o.written == []
    ensures Staged(profiles, args, req, env).Success? ==>
      o.result == (if o.persistCalled && !env.persistOk then Some(PersistFailed) else None)
    ensures o.reloadCalled <==> o.persistCalled && env.persistOk
    ensures o.written == (if o.reloadCalled then Staged(profiles, args, req, env).value else [])
  {
    Finish(Staged(profiles, args, req, env), req.yes, env)
  }

  /**
   * End to end: the daemon reload happens iff the selection succeeds, every
   * selected profile mutates and is accepted by the store, the run is
   * confirmed and persisting works; the profiles written are then exactly
   * the selected ones, each mutated by the request, in order.
   */
  lemma WrittenAreMutated(profiles: seq<Profile>, args: seq<string>, req: Request, env: Env)
    requires RequestWellFormed(req)
    ensures RunSet(profiles, args, req, env).reloadCalled <==>
      && Select(profiles, args, req.all, env.matches).Success?
      && (var t := Select(profiles, args, req.all, env.matches).value;
          forall i :: 0 <= i < |t| ==> Mutate(t[i], req).Success? && env.updateOk(Mutate(t[i], req).value))
      && (req.yes || env.answer in {"y", "yes"})
      && env.persistOk
    ensures RunSet(profiles, args, req, env).reloadCalled ==>
      var t := Select(profiles, args, req.all, env.matches).value;
      var w := RunSet(profiles, args, req, env).written;
      && |w| == |t|
      && forall i :: 0 <= i < |t| ==> Mutate(t[i], req).Success? && w[i] == Mutate(t[i], req).value && env.updateOk(w[i])
  {
    var sel := Select(profiles, args, req.all, env.matches);
    if sel.Success? {
      var t := sel.value;
      assert Staged(profiles, args, req, env) == ProcessAll(t, req, env.updateOk);
      forall i | 0 <= i < |t|
        ensures Process(t[i], req, env.updateOk).Success? <==>
          Mutate(t[i], req).Success? && env.updateOk(Mutate(t[i], req).value)
      {
      }
    }
  }

  /** A failed daemon reload never changes what the command returns. */
  lemma ReloadNeverFails(profiles: seq<Profile>, args: seq<string>, req: Request, env: Env)
    requires RequestWellFormed(req)
    ensures RunSet(profiles, args, req, env.(reloadOk := false)).result == RunSet(profiles, args, req, env.(reloadOk := true)).result
  {
  }

  /** Answering anything but "y" or "yes" at the prompt writes nothing and is not an error. */
  lemma DeclineIsNotAnError(profiles: seq<Profile>, args: seq<string>, req: Request, env: Env)
    requires RequestWellFormed(req)
    requires !req.yes && env.answer != "y" && env.answer != "yes"
    requires Staged(profiles, args, req, env).Success?
    ensures RunSet(profiles, args, req, env).result == None
    ensures !RunSet(profiles, args, req, env).persistCalled
    ensures RunSet(profiles, args, req, env).written == []
  {
  }

  /** A single target that mutates and is accepted by the store goes through the loop alone. */
  lemma ProcessSingle(p: Profile, req: Request, updateOk: Profile -> bool)
    requires RequestWellFormed(req)
    requires Mutate(p, req).Success? && updateOk(Mutate(p, req).value)
    ensures ProcessAll([p], req, updateOk) == Success([Mutate(p, req).value])
  {
    var q := Mutate(p, req).value;
    assert Process(p, req, updateOk) == Success(q);
    assert [p][0] == p;
    var r := ProcessAll([p], req, updateOk);
    assert r.Success?;
    assert |r.value| == 1 && r.value[0] == q;
    assert r.value == [q];
  }

  /**
   * A confirmed run on a store whose only profile is "default", setting the
   * comment to "test" and adding the tag rack=42, writes that profile with
   * both changes and then reloads the daemon.
   */
  lemma CommentAndTagScenario(p: Profile, env: Env)
    requires p.id == "default"
    requires forall id :: env.matches("default", id) <==> id == "default"
    requires forall q :: env.updateOk(q)
    requires env.persistOk
    ensures RequestWellFormed(CommentTagRequest)
    ensures var o := RunSet([p], [], CommentTagRequest, env);
      && o.result == None
      && o.reloadCalled
      && |o.written| == 1
      && o.written[0].id == "default"
      && o.written[0].comment == Some("test")
      && "rack" in o.written[0].tags && o.written[0].tags["rack"] == Some("42")
  {
    var req := CommentTagRequest;
    CommentAndTagMutation(p);
    assert !req.all && req.yes;
    DefaultSelectsExactly([p], env.matches);
    var selected := Select([p], [], false, env.matches);
    assert selected.Success? && |selected.value| == 1;
    assert selected.value[0] in selected.value;
    assert selected.value == [p];
    ProcessSingle(p, req, env.updateOk);
  }
}
