/** Ordered selection over a table keyed by auto-increment id: what
    `WHERE <condition> ORDER BY id` returns. */
module Listing {

  /** The keys below n of m whose row passes keep, in ascending order. */
  function SelectIds<T>(m: map<nat, T>, n: nat, keep: T -> bool): (ids: seq<nat>)
    ensures forall i :: 0 <= i < |ids| ==> ids[i] in m && ids[i] < n && keep(m[ids[i]])
    ensures forall i, j :: 0 <= i < j < |ids| ==> ids[i] < ids[j]
    ensures forall k :: k in m && k < n && keep(m[k]) ==> k in ids
  {
    if n == 0 then []
    else
      var prev := SelectIds(m, n - 1, keep);
      if n - 1 in m && keep(m[n - 1]) then prev + [n - 1] else prev
  }

  /** The rows whose keys SelectIds returns, in the same order: every row is
      one of the qualifying rows, and every qualifying row is there. */
  function SelectRows<T>(m: map<nat, T>, n: nat, keep: T -> bool): (rows: seq<T>)
    ensures |rows| == |SelectIds(m, n, keep)|
    ensures forall i :: 0 <= i < |rows| ==> rows[i] == m[SelectIds(m, n, keep)[i]]
    ensures forall i :: 0 <= i < |rows| ==> keep(rows[i])
    ensures forall k :: k in m && k < n && keep(m[k]) ==> m[k] in rows
  {
    var ids := SelectIds(m, n, keep);
    var rows := seq(|ids|, i requires 0 <= i < |ids| => m[ids[i]]);
    assert forall k :: k in m && k < n && keep(m[k]) ==> m[k] in rows by {
      forall k | k in m && k < n && keep(m[k])
        ensures m[k] in rows
      {
        var i :| 0 <= i < |ids| && ids[i] == k;
        assert rows[i] == m[k];
      }
    }
    rows
  }

  ghost function Selected<T>(m: map<nat, T>, n: nat, keep: T -> bool): set<nat> {
    set k | k in m && k < n && keep(m[k])
  }

  /** The selection has one entry per qualifying row: it is as long as the
      number of qualifying keys (a COUNT(*) with the same condition). */
  lemma {:induction false} SelectCount<T>(m: map<nat, T>, n: nat, keep: T -> bool)
    ensures |SelectIds(m, n, keep)| == |Selected(m, n, keep)|
  {
    if n == 0 {
      assert Selected(m, n, keep) == {};
    } else {
      SelectCount(m, n - 1, keep);
      SelectIdsStep(m, n - 1, keep);
      SelectedStep(m, n - 1, keep);
    }
  }

  /** One more key below the bound adds one id when its row qualifies. */
  lemma SelectIdsStep<T>(m: map<nat, T>, n: nat, keep: T -> bool)
    ensures |SelectIds(m, n + 1, keep)| == |SelectIds(m, n, keep)| + if n in m && keep(m[n]) then 1 else 0
  {
  }

  /** One more key below the bound adds that key to the qualifying set when
      its row qualifies. */
  lemma SelectedStep<T>(m: map<nat, T>, n: nat, keep: T -> bool)
    ensures |Selected(m, n + 1, keep)| == |Selected(m, n, keep)| + if n in m && keep(m[n]) then 1 else 0
  {
    var sel := Selected(m, n, keep);
    assert n !in sel;
    if n in m && keep(m[n]) {
      assert Selected(m, n + 1, keep) == sel + {n};
    } else {
      assert Selected(m, n + 1, keep) == sel;
    }
  }

  /** Two conditions that agree on every stored row select the same ids. */
  lemma {:induction false} SelectSame<T>(m: map<nat, T>, n: nat, k1: T -> bool, k2: T -> bool)
    requires forall k :: k in m ==> k1(m[k]) == k2(m[k])
    ensures SelectIds(m, n, k1) == SelectIds(m, n, k2)
  {
    if n > 0 {
      SelectSame(m, n - 1, k1, k2);
    }
  }
}
