/** Lists of optional outcomes: keeping the present ones, in order, and
    where in the list they came from. */
module Selection {
  import opened Wrappers

  /** The outcome as a list of zero or one values. */
  function Emitted<T>(o: Option<T>): (s: seq<T>)
    ensures |s| <= 1
  {
    if o.Some? then [o.value] else []
  }

  function Shift(idx: seq<nat>): (r: seq<nat>)
    ensures |r| == |idx| && forall k :: 0 <= k < |idx| ==> r[k] == idx[k] + 1
  {
    seq(|idx|, k requires 0 <= k < |idx| => idx[k] + 1)
  }

  /** The entries of a list of per-record outcomes, in order. */
  function Flatten<T>(os: seq<Option<T>>): (r: seq<T>)
    ensures |r| <= |os|
    decreases |os|
  {
    if os == [] then [] else Emitted(os[0]) + Flatten(os[1..])
  }

  /** The positions of the present outcomes, in order. */
  function Present<T>(os: seq<Option<T>>): (idx: seq<nat>)
    ensures |idx| == |Flatten(os)|
    decreases |os|
  {
    if os == [] then []
    else if os[0].Some? then [0] + Shift(Present(os[1..]))
    else Shift(Present(os[1..]))
  }

  /** The k-th entry is the outcome at the k-th present position. */
  lemma {:induction false} PresentAt<T>(os: seq<Option<T>>, k: nat)
    requires k < |Present(os)|
    ensures Present(os)[k] < |os| && os[Present(os)[k]] == Some(Flatten(os)[k])
    decreases |os|
  {
    var tail := Present(os[1..]);
    var rest := Flatten(os[1..]);
    if os[0].Some? && k == 0 {
      assert Flatten(os) == [os[0].value] + rest;
    } else {
      var k' := if os[0].Some? then k - 1 else k;
      PresentAt(os[1..], k');
      var j := tail[k'];
      assert os[1..][j] == os[j + 1];
      if os[0].Some? {
        assert Present(os) == [0] + Shift(tail);
        assert Flatten(os) == [os[0].value] + rest;
      } else {
        assert Present(os) == Shift(tail);
        assert Flatten(os) == rest;
      }
    }
  }

  /** The present positions increase. */
  lemma {:induction false} PresentIncreasing<T>(os: seq<Option<T>>, k: nat, l: nat)
    requires k < l < |Present(os)|
    ensures Present(os)[k] < Present(os)[l]
    decreases |os|
  {
    var tail := Present(os[1..]);
    if os[0].Some? {
      assert Present(os) == [0] + Shift(tail);
      if k > 0 {
        PresentIncreasing(os[1..], k - 1, l - 1);
      }
    } else {
      assert Present(os) == Shift(tail);
      PresentIncreasing(os[1..], k, l);
    }
  }

  /** Every present outcome is listed: position `i` is the `k`-th one. */
  lemma {:induction false} PresentComplete<T>(os: seq<Option<T>>, i: nat) returns (k: nat)
    requires i < |os| && os[i].Some?
    ensures k < |Present(os)| && Present(os)[k] == i
    decreases |os|
  {
    if i == 0 {
      k := 0;
    } else {
      var tail := Present(os[1..]);
      assert os[1..][i - 1] == os[i];
      var j := PresentComplete(os[1..], i - 1);
      if os[0].Some? {
        assert Present(os) == [0] + Shift(tail);
        k := j + 1;
      } else {
        assert Present(os) == Shift(tail);
        k := j;
      }
    }
  }
}
