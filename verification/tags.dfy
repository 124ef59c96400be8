/**
 * Upsert and delete on a tag map: the two loops the command runs over the
 * profile's tags and, identically, over one interface's tags.
 */
module TagOps {
  import opened Wrappers
  import opened Node
  import opened KeyVal

  /** One `key=value` argument: create the entry when absent, then set it. */
  function Upsert(m: TagMap, t: string): TagMap
    requires '=' in t
  {
    var kv := SplitKeyVal(t);
    m[kv.0 := Some(kv.1)]
  }

  /** The add loop, front to back. */
  function AddTags(m: TagMap, adds: seq<string>): TagMap
    requires AllKeyed(adds)
    decreases |adds|
  {
    if |adds| == 0 then m
    else AddTags(Upsert(m, adds[0]), adds[1..])
  }

  /** Reference definition: the value the LAST argument with key `k` carries, if any argument has that key. */
  function LastValue(adds: seq<string>, k: string): Option<string>
    requires AllKeyed(adds)
    decreases |adds|
  {
    if |adds| == 0 then None
    else
      var kv := SplitKeyVal(adds[|adds| - 1]);
      if kv.0 == k then Some(kv.1) else LastValue(adds[..|adds| - 1], k)
  }

  /** The delete loop: every key must be present when its turn comes; the first missing key is the error. */
  function DelTags(m: TagMap, dels: seq<string>): Result<TagMap, string>
    decreases |dels|
  {
    if |dels| == 0 then Success(m)
    else if dels[0] !in m then Failure(dels[0])
    else DelTags(m - {dels[0]}, dels[1..])
  }

  function ToSet(s: seq<string>): set<string> {
    set x | x in s
  }

  predicate Distinct(s: seq<string>) {
    forall i, j :: 0 <= i < j < |s| ==> s[i] != s[j]
  }

  /** A delete list the loop gets through: every key present, none named twice. */
  predicate ValidDeletes(m: TagMap, dels: seq<string>) {
    (forall d :: d in dels ==> d in m) && Distinct(dels)
  }

  /**
   * `key` is the key the delete loop stops on: the keys before it all went
   * through, and it is absent when its turn comes (never there, or already
   * deleted).
   */
  predicate FirstMissing(m: TagMap, dels: seq<string>, key: string) {
    exists i :: 0 <= i < |dels| && dels[i] == key && ValidDeletes(m, dels[..i]) && key !in m - ToSet(dels[..i])
  }

  /** A delete list starting with a present key is valid iff the rest is valid once that key is gone. */
  lemma ValidDeletesCons(m: TagMap, d: string, rest: seq<string>)
    requires d in m
    ensures ValidDeletes(m, [d] + rest) <==> ValidDeletes(m - {d}, rest)
    ensures ToSet([d] + rest) == {d} + ToSet(rest)
  {
    var dels := [d] + rest;
    assert forall j :: 0 <= j < |rest| ==> dels[j + 1] == rest[j];
    assert Distinct(dels) <==> d !in rest && Distinct(rest) by {
      if Distinct(dels) {
        forall x | x in rest ensures x != d {
          var j :| 0 <= j < |rest| && rest[j] == x;
          assert dels[0] == d && dels[j + 1] == x;
        }
      }
      if d !in rest && Distinct(rest) {
        forall i, j | 0 <= i < j < |dels| ensures dels[i] != dels[j] {
          if i > 0 {
            assert dels[i] == rest[i - 1] && dels[j] == rest[j - 1];
          } else {
            assert dels[j] == rest[j - 1];
          }
        }
      }
    }
    assert forall x :: x in dels <==> x == d || x in rest;
  }

  /** Adding one more argument at the end upserts it after all the others. */
  lemma {:induction false} AddTagsSnoc(m: TagMap, adds: seq<string>, t: string)
    requires AllKeyed(adds) && '=' in t
    ensures AllKeyed(adds + [t])
    ensures AddTags(m, adds + [t]) == Upsert(AddTags(m, adds), t)
    decreases |adds|
  {
    if |adds| == 0 {
      assert adds + [t] == [t];
    } else {
      assert (adds + [t])[1..] == adds[1..] + [t];
      AddTagsSnoc(Upsert(m, adds[0]), adds[1..], t);
    }
  }

  /** After the add loop each added key holds the last value given for it; every other key is as before. */
  lemma {:induction false} AddTagsLastWins(m: TagMap, adds: seq<string>, k: string)
    requires AllKeyed(adds)
    ensures var r := AddTags(m, adds);
      match LastValue(adds, k)
      case Some(v) => k in r && r[k] == Some(v)
      case None => (k in r <==> k in m) && (k in m ==> r[k] == m[k])
    decreases |adds|
  {
    if |adds| > 0 {
      var init := adds[..|adds| - 1];
      var t := adds[|adds| - 1];
      assert adds == init + [t];
      AddTagsSnoc(m, init, t);
      AddTagsLastWins(m, init, k);
    }
  }

  /**
   * The delete loop succeeds exactly on a valid delete list, and then
   * removes exactly the listed keys; otherwise it stops on the first key
   * that is absent at its turn.
   */
  lemma {:induction false} DelTagsSpec(m: TagMap, dels: seq<string>)
    ensures DelTags(m, dels).Success? <==> ValidDeletes(m, dels)
    ensures DelTags(m, dels).Success? ==> DelTags(m, dels).value == m - ToSet(dels)
    ensures DelTags(m, dels).Failure? ==> DelTags(m, dels).error in dels
    ensures DelTags(m, dels).Failure? ==> FirstMissing(m, dels, DelTags(m, dels).error)
    decreases |dels|
  {
    DelTagsStopsAt(m, dels);
    if |dels| == 0 {
      assert ToSet(dels) == {};
    } else {
      var d := dels[0];
      var rest := dels[1..];
      assert dels == [d] + rest;
      if d in m {
        DelTagsSpec(m - {d}, rest);
        ValidDeletesCons(m, d, rest);
      }
    }
  }

  /** A failing delete loop stops on the first key that is absent at its turn. */
  lemma {:induction false} DelTagsStopsAt(m: TagMap, dels: seq<string>)
    ensures DelTags(m, dels).Failure? ==> FirstMissing(m, dels, DelTags(m, dels).error)
    decreases |dels|
  {
    if |dels| > 0 && DelTags(m, dels).Failure? {
      var d := dels[0];
      var rest := dels[1..];
      assert dels == [d] + rest;
      if d !in m {
        assert dels[..0] == [] && ToSet([]) == {};
        assert ValidDeletes(m, dels[..0]);
      } else {
        DelTagsStopsAt(m - {d}, rest);
        var key := DelTags(m, dels).error;
        var i :| 0 <= i < |rest| && rest[i] == key && ValidDeletes(m - {d}, rest[..i])
          && key !in (m - {d}) - ToSet(rest[..i]);
        assert dels[..i + 1] == [d] + rest[..i];
        ValidDeletesCons(m, d, rest[..i]);
        assert dels[i + 1] == key;
      }
    }
  }

  /** Both loops in order: adds first, then deletes, on the same map. */
  function AddThenDelete(m: TagMap, adds: seq<string>, dels: seq<string>): Result<TagMap, string>
    requires AllKeyed(adds)
  {
    DelTags(AddTags(m, adds), dels)
  }

  /**
   * The combined effect, key by key: a key survives iff it was there or was
   * added, and is not deleted; a surviving added key holds its last value.
   * Adding and then deleting the same key therefore leaves it absent.
   */
  lemma AddThenDeleteSpec(m: TagMap, adds: seq<string>, dels: seq<string>)
    requires AllKeyed(adds)
    ensures AddThenDelete(m, adds, dels).Success? <==> ValidDeletes(AddTags(m, adds), dels)
    ensures AddThenDelete(m, adds, dels).Failure? ==> AddThenDelete(m, adds, dels).error in dels
    ensures AddThenDelete(m, adds, dels).Failure? ==> FirstMissing(AddTags(m, adds), dels, AddThenDelete(m, adds, dels).error)
    ensures AddThenDelete(m, adds, dels).Success? ==>
      var r := AddThenDelete(m, adds, dels).value;
      forall k ::
        && (k in r <==> (k in m || LastValue(adds, k).Some?) && k !in dels)
        && (k in r ==> r[k] == if LastValue(adds, k).Some? then Some(LastValue(adds, k).value) else m[k])
  {
    var a := AddTags(m, adds);
    DelTagsSpec(a, dels);
    forall k ensures
      && (k in a <==> k in m || LastValue(adds, k).Some?)
      && (k in a ==> a[k] == if LastValue(adds, k).Some? then Some(LastValue(adds, k).value) else m[k])
    {
      AddTagsLastWins(m, adds, k);
    }
  }
}
