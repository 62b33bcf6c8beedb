/** Rotations of a list, and the is_rotated test. */
module Rotations {
  import opened Graph

  datatype Answer = Answer(yes: bool) | Error

  ghost function Rotation(s: seq<Item>, k: nat): seq<Item>
    requires k <= |s|
  {
    s[k..] + s[..k]
  }

  ghost predicate Rotated(s: seq<Item>, t: seq<Item>) {
    exists k :: 0 <= k < |s| && Rotation(s, k) == t
  }

  lemma RotatedRefl(s: seq<Item>)
    requires s != []
    ensures Rotated(s, s)
  {
    assert Rotation(s, 0) == s;
  }

  lemma RotatedSym(s: seq<Item>, t: seq<Item>)
    requires Rotated(s, t)
    ensures Rotated(t, s)
  {
    var k :| 0 <= k < |s| && Rotation(s, k) == t;
    var j := if k == 0 then 0 else |s| - k;
    assert Rotation(t, j) == s;
  }

  lemma RotationTwice(s: seq<Item>, j: nat, k: nat)
    requires j < |s| && k < |s|
    ensures j + k < |s| ==> Rotation(Rotation(s, j), k) == Rotation(s, j + k)
    ensures j + k >= |s| ==> Rotation(Rotation(s, j), k) == Rotation(s, j + k - |s|)
  {
    var t := Rotation(s, j);
    if j + k < |s| {
      assert t[k..] == s[j + k..] + s[..j] && t[..k] == s[j..j + k];
    } else {
      assert t[k..] == s[j + k - |s|..j] && t[..k] == s[j..] + s[..j + k - |s|];
    }
  }

  lemma RotatedTrans(s: seq<Item>, t: seq<Item>, u: seq<Item>)
    requires Rotated(s, t) && Rotated(t, u)
    ensures Rotated(s, u)
  {
    var j :| 0 <= j < |s| && Rotation(s, j) == t;
    var k :| 0 <= k < |t| && Rotation(t, k) == u;
    RotationTwice(s, j, k);
    assert u == Rotation(s, if j + k < |s| then j + k else j + k - |s|);
  }

  /** is_rotated. Error stands for the IndexError that two empty lists raise. */
  method IsRotated(seq1: seq<Item>, seq2: seq<Item>) returns (r: Answer)
    ensures r.Error? <==> seq1 == [] && seq2 == []
    ensures r.Answer? ==> (r.yes <==> Rotated(seq1, seq2))
  {
    if |seq1| != |seq2| {
      return Answer(false);
    }
    if seq2 == [] {
      return Error;
    }
    var startIndexes: seq<nat> := [];
    var headItem := seq2[0];
    for index1 := 0 to |seq1|
      invariant forall i :: i in startIndexes <==> 0 <= i < index1 && seq1[i] == headItem
    {
      if seq1[index1] == headItem {
        startIndexes := startIndexes + [index1];
      }
    }
    var doubleSeq1 := seq1 + seq1;
    for n := 0 to |startIndexes|
      invariant forall m :: 0 <= m < n ==> startIndexes[m] < |seq1| && Rotation(seq1, startIndexes[m]) != seq2
    {
      var index1 := startIndexes[n];
      assert index1 in startIndexes;
      assert doubleSeq1[index1..index1 + |seq1|] == Rotation(seq1, index1);
      if doubleSeq1[index1..index1 + |seq1|] == seq2 {
        return Answer(true);
      }
    }
    forall k | 0 <= k < |seq1| ensures Rotation(seq1, k) != seq2 {
      assert Rotation(seq1, k)[0] == seq1[k];
      assert seq1[k] == headItem ==> k in startIndexes;
    }
    return Answer(false);
  }
}
