/**
 * The one-edit relation between names, as `one_edit_apart` computes it, and the edits it stands for.
 */
module Edits {
  import opened Wrappers

  /** The positions from `i` on at which two equally long strings differ, in ascending order. */
  function DifferencesFrom(a: string, b: string, i: nat): (r: seq<nat>)
    requires |a| == |b| && i <= |a|
    ensures forall p | 0 <= p < |r| :: i <= r[p] < |a| && a[r[p]] != b[r[p]]
    ensures forall k | i <= k < |a| && a[k] != b[k] :: k in r
    ensures forall p, q | 0 <= p < q < |r| :: r[p] < r[q]
    decreases |a| - i
  {
    if i == |a| then []
    else
      var rest := DifferencesFrom(a, b, i + 1);
      if a[i] != b[i] then [i] + rest else rest
  }

  function Without(s: string, i: nat): string
    requires i < |s|
  {
    s[..i] + s[i + 1..]
  }

  /** One differing position, or two adjacent ones holding each other's letters. */
  predicate SubstitutedOrSwapped(a: string, b: string)
    requires |a| == |b|
  {
    var diffs := DifferencesFrom(a, b, 0);
    || |diffs| == 1
    || (|diffs| == 2 && diffs[1] == diffs[0] + 1 && a[diffs[0]] == b[diffs[1]] && a[diffs[1]] == b[diffs[0]])
  }

  predicate OneLetterShort(a: string, b: string) {
    exists i | 0 <= i < |b| :: a == Without(b, i)
  }

  predicate OneEditApart(first: string, second: string) {
    if first == second then false
    else
      var (a, b) := if |first| <= |second| then (first, second) else (second, first);
      if |b| - |a| > 1 then false
      else if |a| == |b| then SubstitutedOrSwapped(a, b)
      else OneLetterShort(a, b)
  }

  /** A single typing slip. */
  datatype Edit =
    | Substitute(at: nat, letter: char)
    | Insert(at: nat, letter: char)
    | Delete(at: nat)
    | Swap(at: nat)

  /** What the slip turns `s` into, or None when it names no position of `s`. */
  function Edited(edit: Edit, s: string): Option<string> {
    match edit
    case Substitute(at, letter) => if at < |s| then Some(s[at := letter]) else None
    case Insert(at, letter) => if at <= |s| then Some(s[..at] + [letter] + s[at..]) else None
    case Delete(at) => if at < |s| then Some(Without(s, at)) else None
    case Swap(at) => if at + 1 < |s| then Some(s[at := s[at + 1]][at + 1 := s[at]]) else None
  }

  ghost predicate Reaches(x: string, y: string) {
    exists edit :: Edited(edit, x) == Some(y)
  }

  /** Two differing positions or fewer, named: everything a comparison of equal lengths can accept. */
  lemma SameLengthSound(x: string, y: string)
    requires |x| == |y| && x != y && OneEditApart(x, y)
    ensures Reaches(x, y)
  {
    var diffs := DifferencesFrom(x, y, 0);
    if |diffs| == 1 {
      var at := diffs[0];
      assert at in diffs;
      assert forall k | 0 <= k < |x| && k != at :: x[k] == y[k] by {
        assert forall k | k in diffs :: k == at;
      }
      assert x[at := y[at]] == y;
      assert Edited(Substitute(at, y[at]), x) == Some(y);
    } else {
      var at := diffs[0];
      assert at in diffs && diffs[1] in diffs;
      assert forall k | 0 <= k < |x| && k != at && k != at + 1 :: x[k] == y[k] by {
        assert forall k | k in diffs :: k == at || k == at + 1;
      }
      assert x[at := x[at + 1]][at + 1 := x[at]] == y;
      assert Edited(Swap(at), x) == Some(y);
    }
  }

  lemma {:induction false} AscendingFits(r: seq<nat>, low: nat, high: nat)
    requires forall p | 0 <= p < |r| :: low <= r[p] < high
    requires forall p, q | 0 <= p < q < |r| :: r[p] < r[q]
    ensures |r| <= if low <= high then high - low else 0
  {
    if r != [] {
      AscendingFits(r[1..], r[0] + 1, high);
    }
  }

  /** Two differing positions pin the list of differences down. */
  lemma DifferencesArePair(x: string, y: string, at: nat)
    requires |x| == |y| && at + 1 < |x| && x[at] != y[at] && x[at + 1] != y[at + 1]
    requires forall k | 0 <= k < |x| && x[k] != y[k] :: k == at || k == at + 1
    ensures DifferencesFrom(x, y, 0) == [at, at + 1]
  {
    hide DifferencesFrom;
    var diffs := DifferencesFrom(x, y, 0);
    assert at in diffs && at + 1 in diffs;
    AscendingFits(diffs, at, at + 2);
  }

  lemma DifferencesAreOne(x: string, y: string, at: nat)
    requires |x| == |y| && at < |x| && x[at] != y[at]
    requires forall k | 0 <= k < |x| && x[k] != y[k] :: k == at
    ensures DifferencesFrom(x, y, 0) == [at]
  {
    hide DifferencesFrom;
    var diffs := DifferencesFrom(x, y, 0);
    assert at in diffs;
    AscendingFits(diffs, at, at + 1);
  }

  lemma SameLengthComplete(x: string, y: string, edit: Edit)
    requires |x| == |y| && x != y && Edited(edit, x) == Some(y)
    ensures OneEditApart(x, y)
  {
    if edit.Substitute? {
      DifferencesAreOne(x, y, edit.at);
    } else {
      DifferencesArePair(x, y, edit.at);
    }
  }

  lemma Symmetric(x: string, y: string)
    ensures OneEditApart(x, y) == OneEditApart(y, x)
  {
    if |x| == |y| && x != y {
      SameDifferences(x, y, 0);
    }
  }

  lemma {:induction false} SameDifferences(x: string, y: string, i: nat)
    requires |x| == |y| && i <= |x|
    ensures DifferencesFrom(x, y, i) == DifferencesFrom(y, x, i)
    decreases |x| - i
  {
    if i == |x| {
      assert DifferencesFrom(x, y, i) == [] == DifferencesFrom(y, x, i);
    } else {
      SameDifferences(x, y, i + 1);
      var rest := DifferencesFrom(x, y, i + 1);
      assert DifferencesFrom(x, y, i) == if x[i] != y[i] then [i] + rest else rest;
      assert DifferencesFrom(y, x, i) == if x[i] != y[i] then [i] + rest else rest;
    }
  }

  /** Taking a letter out and putting it back are inverse slips. */
  lemma LongerByOne(x: string, y: string)
    requires |y| == |x| + 1
    ensures OneEditApart(x, y) <==> Reaches(x, y)
    ensures OneEditApart(y, x) <==> Reaches(y, x)
  {
    hide DifferencesFrom, OneEditApart, Reaches;
    Symmetric(x, y);
    if OneEditApart(x, y) {
      LongerSound(x, y);
    }
    if Reaches(x, y) {
      InsertedIsApart(x, y);
    }
    if Reaches(y, x) {
      DeletedIsApart(x, y);
    }
  }

  lemma LongerSound(x: string, y: string)
    requires |y| == |x| + 1 && OneEditApart(x, y)
    ensures Reaches(x, y) && Reaches(y, x)
  {
    hide DifferencesFrom;
    var i :| 0 <= i < |y| && x == Without(y, i);
    assert x[..i] + [y[i]] + x[i..] == y;
    assert Edited(Insert(i, y[i]), x) == Some(y);
    assert Edited(Delete(i), y) == Some(x);
  }

  lemma InsertedIsApart(x: string, y: string)
    requires |y| == |x| + 1 && Reaches(x, y)
    ensures OneEditApart(x, y)
  {
    hide DifferencesFrom;
    var edit :| Edited(edit, x) == Some(y);
    assert Without(y, edit.at) == x[..edit.at] + x[edit.at..] == x;
  }

  lemma DeletedIsApart(x: string, y: string)
    requires |y| == |x| + 1 && Reaches(y, x)
    ensures OneEditApart(x, y)
  {
    hide DifferencesFrom;
    var edit :| Edited(edit, y) == Some(x);
    assert x == Without(y, edit.at);
  }

  /** The test is exact: it accepts two names exactly when they differ and one slip turns the first into the second. */
  lemma OneEditExact(x: string, y: string)
    ensures OneEditApart(x, y) <==> x != y && Reaches(x, y)
  {
    if |x| == |y| {
      if OneEditApart(x, y) {
        SameLengthSound(x, y);
      } else if x != y && Reaches(x, y) {
        var edit :| Edited(edit, x) == Some(y);
        SameLengthComplete(x, y, edit);
      }
    } else if |y| == |x| + 1 {
      LongerByOne(x, y);
    } else if |x| == |y| + 1 {
      LongerByOne(y, x);
    }
  }
}
