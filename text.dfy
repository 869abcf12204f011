/** Strings built from parts, and where those parts occur in them. */
module Text {

  /** `t` occurs in `s` starting at position `i`. */
  ghost predicate OccursAt(s: string, t: string, i: nat) {
    i + |t| <= |s| && s[i..i + |t|] == t
  }

  ghost predicate Contains(s: string, t: string) {
    exists i: nat :: OccursAt(s, t, i)
  }

  lemma OccursBetween(a: string, t: string, b: string)
    ensures OccursAt(a + t + b, t, |a|)
  {
    assert (a + t + b)[|a|..|a| + |t|] == t;
  }

  /** In a string made of five parts, the second and fourth occur where the
      lengths of the parts before them say. */
  lemma OccursInParts(a: string, b: string, c: string, d: string, e: string) returns (bAt: nat, dAt: nat)
    ensures bAt == |a| && dAt == |a| + |b| + |c|
    ensures OccursAt(a + b + c + d + e, b, bAt) && OccursAt(a + b + c + d + e, d, dAt)
  {
    var s := a + b + c + d + e;
    assert s == a + b + (c + d + e);
    OccursBetween(a, b, c + d + e);
    assert s == (a + b + c) + d + e;
    OccursBetween(a + b + c, d, e);
    bAt, dAt := |a|, |a| + |b| + |c|;
  }

  /** `fields` joined by `seps`: the first field, the first separator, the
      second field, and so on. */
  function Fill(fields: seq<string>, seps: seq<string>): (r: string)
    requires |fields| == |seps| + 1
    ensures |fields[0]| <= |r| && r[..|fields[0]|] == fields[0]
    ensures |fields[|seps|]| <= |r| && r[|r| - |fields[|seps|]|..] == fields[|seps|]
    decreases |seps|
  {
    if seps == [] then fields[0] else fields[0] + seps[0] + Fill(fields[1..], seps[1..])
  }

  /** Where the `k`-th field starts in `Fill(fields, seps)`. */
  function FieldStart(fields: seq<string>, seps: seq<string>, k: nat): nat
    requires |fields| == |seps| + 1 && k < |fields|
    decreases k
  {
    if k == 0 then 0 else |fields[0]| + |seps[0]| + FieldStart(fields[1..], seps[1..], k - 1)
  }

  /** Every field occurs at its start position. */
  lemma {:induction false} FillHoldsField(fields: seq<string>, seps: seq<string>, k: nat)
    requires |fields| == |seps| + 1 && k < |fields|
    ensures OccursAt(Fill(fields, seps), fields[k], FieldStart(fields, seps, k))
    decreases k
  {
    var text := Fill(fields, seps);
    if k == 0 {
      assert text[0..|fields[0]|] == text[..|fields[0]|];
    } else {
      var rest := Fill(fields[1..], seps[1..]);
      FillHoldsField(fields[1..], seps[1..], k - 1);
      var p := FieldStart(fields[1..], seps[1..], k - 1);
      var head := fields[0] + seps[0];
      assert text == head + rest;
      assert text[|head| + p..|head| + p + |fields[k]|] == rest[p..p + |fields[k]|];
    }
  }

  /** Each field ends before the next one starts. */
  lemma {:induction false} FieldStartsIncrease(fields: seq<string>, seps: seq<string>, k: nat)
    requires |fields| == |seps| + 1 && k + 1 < |fields|
    ensures FieldStart(fields, seps, k) + |fields[k]| + |seps[k]| == FieldStart(fields, seps, k + 1)
    decreases k
  {
    if k > 0 {
      FieldStartsIncrease(fields[1..], seps[1..], k - 1);
    }
  }
}
