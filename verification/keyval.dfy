/** Splitting of `key=value` tag arguments, as `strings.SplitN(t, "=", 2)` does it. */
module KeyVal {

  /** Position of the first `c` in `s`, or `|s|` when `s` has none. */
  function FirstIndex(s: string, c: char): (i: nat)
    ensures i <= |s|
    ensures i < |s| ==> s[i] == c
    ensures forall j :: 0 <= j < i ==> s[j] != c
    ensures i == |s| <==> c !in s
  {
    if |s| == 0 then 0
    else if s[0] == c then 0
    else 1 + FirstIndex(s[1..], c)
  }

  /** Every argument of an add-tag list carries a `=`; the command indexes past it otherwise. */
  predicate AllKeyed(ts: seq<string>) {
    forall t :: t in ts ==> '=' in t
  }

  /** The key before the first `=` and the value after it. */
  function SplitKeyVal(t: string): (kv: (string, string))
    requires '=' in t
    ensures t == kv.0 + "=" + kv.1
    ensures '=' !in kv.0
  {
    var i := FirstIndex(t, '=');
    assert t == t[..i] + "=" + t[i + 1..];
    (t[..i], t[i + 1..])
  }

  /** Joining a key without `=` to any value and splitting again gives both back. */
  lemma {:induction false} SplitJoin(k: string, v: string)
    requires '=' !in k
    ensures '=' in k + "=" + v
    ensures SplitKeyVal(k + "=" + v) == (k, v)
  {
    var t := k + "=" + v;
    assert t[|k|] == '=';
    var i := FirstIndex(t, '=');
    assert i <= |k|;
    assert i == |k|;
    assert t[..i] == k;
    assert t[i + 1..] == v;
  }
}
