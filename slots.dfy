/** The six guess slots of the board. A slot is empty (`null` in the game) or
    holds a submitted word. */
module Slots {

  datatype Option<+T> = None | Some(value: T)

  /** One slot of the board's guess list. */
  type Slot = Option<string>

  /** Number of guess slots: `Array(6).fill(null)`. */
  const ROWS: nat := 6

  /** `findIndex(val => val == null)`: the index of the first empty slot,
      or -1 when every slot holds a word. */
  function FirstEmpty(s: seq<Slot>): (r: int)
    ensures -1 <= r < |s|
    ensures r == -1 <==> forall j :: 0 <= j < |s| ==> s[j].Some?
    ensures 0 <= r ==> s[r].None? && forall j :: 0 <= j < r ==> s[j].Some?
  {
    if |s| == 0 then -1
    else if s[0].None? then 0
    else
      var r := FirstEmpty(s[1..]);
      if r == -1 then -1 else r + 1
  }

  /** Number of slots that hold a word. */
  function Filled(s: seq<Slot>): (n: nat)
    ensures n <= |s|
  {
    if |s| == 0 then 0 else (if s[0].Some? then 1 else 0) + Filled(s[1..])
  }

  /** Slots are filled front to back: an empty slot is never followed by a
      filled one. */
  predicate Contiguous(s: seq<Slot>) {
    forall i, j :: 0 <= i < j < |s| && s[i].None? ==> s[j].None?
  }

  /** A board that is all empty slots has none filled. */
  lemma {:induction false} FilledNone(s: seq<Slot>)
    requires forall i :: 0 <= i < |s| ==> s[i].None?
    ensures Filled(s) == 0
  {
    if |s| > 0 {
      FilledNone(s[1..]);
    }
  }

  /** Filling an empty slot raises the filled count by exactly one. */
  lemma {:induction false} FilledFill(s: seq<Slot>, k: nat, w: string)
    requires k < |s| && s[k].None?
    ensures Filled(s[k := Some(w)]) == Filled(s) + 1
  {
    if k == 0 {
      assert s[k := Some(w)][1..] == s[1..];
    } else {
      assert s[k := Some(w)][1..] == s[1..][k - 1 := Some(w)];
      FilledFill(s[1..], k - 1, w);
    }
  }

  /** In contiguous slots the filled ones are exactly the first `Filled(s)`. */
  lemma {:induction false} ContiguousPrefix(s: seq<Slot>)
    requires Contiguous(s)
    ensures forall i :: 0 <= i < |s| ==> (s[i].Some? <==> i < Filled(s))
  {
    if |s| > 0 {
      assert Contiguous(s[1..]) by {
        forall i, j | 0 <= i < j < |s[1..]| && s[1..][i].None?
          ensures s[1..][j].None?
        {
          assert s[i + 1].None?;
        }
      }
      ContiguousPrefix(s[1..]);
      if s[0].None? {
        assert forall i :: 0 <= i < |s| ==> s[i].None?;
      } else {
        forall i | 0 <= i < |s|
          ensures s[i].Some? <==> i < Filled(s)
        {
          if i > 0 {
            assert s[i] == s[1..][i - 1];
          }
        }
      }
    }
  }

  /** In contiguous slots the first empty one sits right after the filled
      prefix, and there is none when all are filled. */
  lemma ContiguousFirstEmpty(s: seq<Slot>)
    requires Contiguous(s)
    ensures FirstEmpty(s) == if Filled(s) == |s| then -1 else Filled(s)
  {
    ContiguousPrefix(s);
  }
}
