/** Putting an element into a list and taking one out. */
module Sequences {
  function Inserted<T>(s: seq<T>, k: nat, x: T): (r: seq<T>)
    requires k <= |s|
  {
    s[..k] + [x] + s[k..]
  }

  lemma InsertedAt<T>(s: seq<T>, k: nat, x: T)
    requires k <= |s|
    ensures var r := Inserted(s, k, x);
            |r| == |s| + 1 &&
            (forall i :: 0 <= i < |r| ==> r[i] == if i < k then s[i] else if i == k then x else s[i - 1]) &&
            forall y :: y in r <==> y == x || y in s
  {
  }

  function Removed<T>(s: seq<T>, k: nat): (r: seq<T>)
    requires k < |s|
  {
    s[..k] + s[k + 1..]
  }

  lemma RemovedAt<T>(s: seq<T>, k: nat)
    requires k < |s|
    ensures var r := Removed(s, k);
            |r| == |s| - 1 && (forall i :: 0 <= i < |r| ==> r[i] == if i < k then s[i] else s[i + 1]) &&
            forall y :: y in r ==> y in s
  {
  }

  /** Taking out what was put in restores the list. */
  lemma RemoveUndoesInsert<T>(s: seq<T>, k: nat, x: T)
    requires k <= |s|
    ensures k < |Inserted(s, k, x)| && Removed(Inserted(s, k, x), k) == s
  {
  }

  /** What is taken is what f keeps of the whole, in its order; `at` tells from where. */
  ghost predicate Keeps<T>(whole: seq<T>, f: T -> bool, taken: seq<T>, at: seq<nat>)
  {
    |at| == |taken| && (forall i, j :: 0 <= i < j < |at| ==> at[i] < at[j]) &&
    (forall i :: 0 <= i < |at| ==> at[i] < |whole| && taken[i] == whole[at[i]]) &&
    forall k :: 0 <= k < |whole| ==> (f(whole[k]) <==> k in at)
  }

  /** One element more. */
  lemma KeepsOneMore<T>(whole: seq<T>, f: T -> bool, taken: seq<T>, at: seq<nat>, x: T)
    requires Keeps(whole, f, taken, at)
    ensures f(x) ==> Keeps(whole + [x], f, taken + [x], at + [|whole|])
    ensures !f(x) ==> Keeps(whole + [x], f, taken, at)
  {
    var n := at + [|whole|];
    assert n[|at|] == |whole|;
    assert forall k :: k in n <==> k in at || k == |whole|;
    assert forall k :: 0 <= k < |whole| ==> (whole + [x])[k] == whole[k];
    assert |whole| !in at;
  }

  lemma NothingKept<T>(whole: seq<T>, f: T -> bool, taken: seq<T>, at: seq<nat>)
    requires Keeps(whole, f, taken, at)
    ensures taken == [] <==> forall k :: 0 <= k < |whole| ==> !f(whole[k])
  {
    if taken != [] { assert at[0] in at && f(whole[at[0]]); }
  }
}
