/**
 * The batch pass of the installment fine job
 * (app/Console/Commands/Cron/CalculateInstallmentFine.php, `handle`).
 *
 * The items table is an array of rows held in ascending primary-key order.
 * The job walks the overdue rows in chunks of at most ChunkSize, ordered by
 * id, and overwrites the `fine` column of each row of a chunk in place.
 */
module FineJob {
  import opened Options
  import opened InstallmentFine

  /** Rows fetched per chunk. */
  const ChunkSize: nat := 1000

  /** The table is in ascending, duplicate-free primary-key order. */
  predicate IdsAscending(s: seq<Item>)
  {
    forall i, j :: 0 <= i < j < |s| ==> s[i].id < s[j].id
  }

  /**
   * In a table kept in id order, "id greater than the id of row p" picks out
   * exactly the rows after position p, so a position cursor is an id cursor.
   */
  lemma CursorIsIdCursor(s: seq<Item>, p: nat)
    requires IdsAscending(s) && p < |s|
    ensures forall i :: 0 <= i < |s| ==> (i > p <==> s[i].id > s[p].id)
  {
  }

  /** One row after the job: an overdue row gets its fine recomputed, every other row is left alone. */
  function Refresh(item: Item, plans: map<int, Plan>, now: int): (r: Item)
    ensures r.(fine := item.fine) == item
    ensures !Overdue(item, plans, now) ==> r == item
  {
    if Overdue(item, plans, now) then
      item.(fine := ItemFine(item, plans[item.installmentId].fineRate, now))
    else
      item
  }

  /** The whole table after one run of the job. */
  function Recalculated(s: seq<Item>, plans: map<int, Plan>, now: int): (r: seq<Item>)
    ensures |r| == |s|
    ensures IdsAscending(s) ==> IdsAscending(r)
  {
    seq(|s|, i requires 0 <= i < |s| => Refresh(s[i], plans, now))
  }

  /** Positions, in ascending order, of the overdue rows at or after `from`. */
  function Matching(s: seq<Item>, plans: map<int, Plan>, now: int, from: nat): seq<nat>
    decreases |s| - from
  {
    if from >= |s| then []
    else if Overdue(s[from], plans, now) then [from] + Matching(s, plans, now, from + 1)
    else Matching(s, plans, now, from + 1)
  }

  /** The first n elements of s, or all of s when it is shorter (an SQL LIMIT). */
  function Take<T>(s: seq<T>, n: nat): (r: seq<T>)
    ensures |r| <= n && r <= s
    ensures |s| <= n ==> r == s
    ensures |s| >= n ==> |r| == n
  {
    if |s| <= n then s else s[..n]
  }

  /** The chunks of a run laid end to end. */
  function Flatten(batches: seq<seq<nat>>): seq<nat>
  {
    if batches == [] then [] else Flatten(batches[..|batches| - 1]) + batches[|batches| - 1]
  }

  /** A sequence of positions in strictly ascending order. */
  predicate StrictlyIncreasing(s: seq<nat>)
  {
    forall j, k :: 0 <= j < k < |s| ==> s[j] < s[k]
  }

  // ---------------------------------------------------------------------
  // Properties of the selection

  /** A position is listed exactly when it is at or after `from` and its row is overdue. */
  lemma {:induction false} MatchingMembers(s: seq<Item>, plans: map<int, Plan>, now: int, from: nat)
    ensures forall i :: i in Matching(s, plans, now, from) <==> from <= i < |s| && Overdue(s[i], plans, now)
    decreases |s| - from
  {
    if from < |s| {
      MatchingMembers(s, plans, now, from + 1);
    }
  }

  /** The overdue positions come in strictly ascending order, so each appears once. */
  lemma {:induction false} MatchingIncreasing(s: seq<Item>, plans: map<int, Plan>, now: int, from: nat)
    ensures StrictlyIncreasing(Matching(s, plans, now, from))
    ensures forall k :: 0 <= k < |Matching(s, plans, now, from)| ==> from <= Matching(s, plans, now, from)[k] < |s|
    decreases |s| - from
  {
    if from < |s| {
      MatchingIncreasing(s, plans, now, from + 1);
    }
  }

  /** In a table in ascending id order, the selection lists its rows in ascending id order. */
  lemma MatchingIdsAscending(s: seq<Item>, plans: map<int, Plan>, now: int, from: nat)
    requires IdsAscending(s)
    ensures forall k :: 0 <= k < |Matching(s, plans, now, from)| ==> Matching(s, plans, now, from)[k] < |s|
    ensures forall j, k :: 0 <= j < k < |Matching(s, plans, now, from)| ==>
      s[Matching(s, plans, now, from)[j]].id < s[Matching(s, plans, now, from)[k]].id
  {
    MatchingIncreasing(s, plans, now, from);
  }

  /** The selection from `from` on looks only at the rows from `from` on. */
  lemma {:induction false} MatchingFrame(s: seq<Item>, t: seq<Item>, plans: map<int, Plan>, now: int, from: nat)
    requires |s| == |t|
    requires forall i :: from <= i < |s| ==> s[i] == t[i]
    ensures Matching(s, plans, now, from) == Matching(t, plans, now, from)
    decreases |s| - from
  {
    if from < |s| {
      MatchingFrame(s, t, plans, now, from + 1);
    }
  }

  /**
   * What is left of the selection after its first m positions is the
   * selection that starts just after the m-th: the cursor of the next chunk.
   */
  lemma {:induction false} MatchingAfter(s: seq<Item>, plans: map<int, Plan>, now: int, from: nat, m: nat)
    requires 0 < m <= |Matching(s, plans, now, from)|
    ensures Matching(s, plans, now, from)[m..] == Matching(s, plans, now, Matching(s, plans, now, from)[m - 1] + 1)
    decreases |s| - from
  {
    var M := Matching(s, plans, now, from);
    var rest := Matching(s, plans, now, from + 1);
    if Overdue(s[from], plans, now) {
      if m == 1 {
        assert M[1..] == rest && M[0] == from by {
          assert M == [from] + rest;
        }
      } else {
        MatchingAfter(s, plans, now, from + 1, m - 1);
        assert M[m..] == rest[m - 1..] && M[m - 1] == rest[m - 2] by {
          assert M == [from] + rest;
        }
      }
    } else {
      assert M == rest;
      MatchingAfter(s, plans, now, from + 1, m);
    }
  }

  /** A chunk (a leading part of the selection) lists distinct overdue positions in ascending order. */
  lemma ChunkShape(s: seq<Item>, plans: map<int, Plan>, now: int, from: nat, chunk: seq<nat>)
    requires chunk <= Matching(s, plans, now, from)
    ensures StrictlyIncreasing(chunk)
    ensures forall k :: 0 <= k < |chunk| ==> from <= chunk[k] < |s| && Overdue(s[chunk[k]], plans, now)
  {
    var M := Matching(s, plans, now, from);
    MatchingMembers(s, plans, now, from);
    MatchingIncreasing(s, plans, now, from);
    forall k | 0 <= k < |chunk|
      ensures from <= chunk[k] < |s| && Overdue(s[chunk[k]], plans, now)
    {
      assert chunk[k] == M[k] && M[k] in M;
    }
  }

  /**
   * A chunk (a leading part of the selection) covers the rows up to its last
   * position exactly: such a row is in the chunk if and only if it is overdue.
   */
  lemma ChunkCovers(s: seq<Item>, plans: map<int, Plan>, now: int, from: nat, chunk: seq<nat>)
    requires chunk <= Matching(s, plans, now, from) && chunk != []
    ensures from <= chunk[0] && chunk[|chunk| - 1] < |s|
    ensures forall i :: from <= i <= chunk[|chunk| - 1] ==> (i in chunk <==> Overdue(s[i], plans, now))
  {
    var M := Matching(s, plans, now, from);
    MatchingMembers(s, plans, now, from);
    MatchingIncreasing(s, plans, now, from);
    forall i | from <= i <= chunk[|chunk| - 1]
      ensures i in chunk <==> Overdue(s[i], plans, now)
    {
      if Overdue(s[i], plans, now) {
        assert i in M;
        var k :| 0 <= k < |M| && M[k] == i;
        assert chunk[k] == i;
      }
    }
  }

  /** The selection splits into a chunk and the selection after the chunk's last position. */
  lemma ChunkSplit(s: seq<Item>, plans: map<int, Plan>, now: int, from: nat, chunk: seq<nat>)
    requires chunk == Take(Matching(s, plans, now, from), ChunkSize) && chunk != []
    ensures Matching(s, plans, now, from) == chunk + Matching(s, plans, now, chunk[|chunk| - 1] + 1)
    ensures |chunk| < ChunkSize ==> Matching(s, plans, now, chunk[|chunk| - 1] + 1) == []
  {
    var M := Matching(s, plans, now, from);
    MatchingAfter(s, plans, now, from, |chunk|);
    assert M == M[..|chunk|] + M[|chunk|..];
  }

  /**
   * The chunks processed so far followed by the rest of the selection make up
   * the whole selection, before and after one more chunk.
   */
  lemma BatchesStep(s: seq<Item>, plans: map<int, Plan>, now: int, from: nat,
                    batches: seq<seq<nat>>, chunk: seq<nat>)
    requires from <= |s|
    requires Flatten(batches) + Matching(s, plans, now, from) == Matching(s, plans, now, 0)
    requires chunk == Take(Matching(s, plans, now, from), ChunkSize)
    ensures chunk == [] ==> Flatten(batches) + Matching(s, plans, now, NextCursor(chunk, |s|)) == Matching(s, plans, now, 0)
    ensures chunk != [] ==> Flatten(batches + [chunk]) + Matching(s, plans, now, NextCursor(chunk, |s|)) == Matching(s, plans, now, 0)
  {
    if chunk == [] {
      assert Matching(s, plans, now, from) == [];
      assert Matching(s, plans, now, |s|) == [];
    } else {
      ChunkSplit(s, plans, now, from, chunk);
      FlattenAppend(batches, chunk);
      var next := NextCursor(chunk, |s|);
      if |chunk| < ChunkSize {
        assert Matching(s, plans, now, next) == [];
      }
      calc {
        Flatten(batches + [chunk]) + Matching(s, plans, now, next);
        (Flatten(batches) + chunk) + Matching(s, plans, now, chunk[|chunk| - 1] + 1);
        Flatten(batches) + (chunk + Matching(s, plans, now, chunk[|chunk| - 1] + 1));
        Flatten(batches) + Matching(s, plans, now, from);
      }
    }
  }

  /** Past the end of an empty selection, the job leaves every row as it is. */
  lemma NothingLeft(s: seq<Item>, plans: map<int, Plan>, now: int, from: nat)
    requires Matching(s, plans, now, from) == []
    ensures forall i :: from <= i < |s| ==> Refresh(s[i], plans, now) == s[i]
  {
    MatchingMembers(s, plans, now, from);
  }

  lemma FlattenAppend(batches: seq<seq<nat>>, chunk: seq<nat>)
    ensures Flatten(batches + [chunk]) == Flatten(batches) + chunk
  {
    assert (batches + [chunk])[..|batches|] == batches;
  }

  // ---------------------------------------------------------------------
  // Properties of one run

  /** Recomputing a row changes nothing but its fine. */
  lemma RefreshOnlyFine(item: Item, plans: map<int, Plan>, now: int)
    ensures Refresh(item, plans, now).(fine := item.fine) == item
    ensures Overdue(Refresh(item, plans, now), plans, now) == Overdue(item, plans, now)
  {
  }

  /**
   * A run updates exactly the overdue rows: each of them gets the capped fine
   * computed from its own base, fee and due date and its plan's rate, and no
   * other row and no other column changes.
   */
  lemma RecalculatedRows(s: seq<Item>, plans: map<int, Plan>, now: int)
    ensures |Recalculated(s, plans, now)| == |s|
    ensures forall i :: 0 <= i < |s| ==> Recalculated(s, plans, now)[i].(fine := s[i].fine) == s[i]
    ensures forall i :: 0 <= i < |s| && !Overdue(s[i], plans, now) ==> Recalculated(s, plans, now)[i] == s[i]
    ensures forall i :: 0 <= i < |s| && Overdue(s[i], plans, now) ==>
      Recalculated(s, plans, now)[i].fine == ItemFine(s[i], plans[s[i].installmentId].fineRate, now)
  {
  }

  /** After a run every overdue row's fine is at most its principal plus fee. */
  lemma RecalculatedCapped(s: seq<Item>, plans: map<int, Plan>, now: int)
    ensures forall i :: 0 <= i < |s| && Overdue(s[i], plans, now) ==>
      Recalculated(s, plans, now)[i].fine <= Total(s[i])
  {
    forall i | 0 <= i < |s| && Overdue(s[i], plans, now)
      ensures Recalculated(s, plans, now)[i].fine <= Total(s[i])
    {
      FineCapped(s[i], plans[s[i].installmentId].fineRate, now);
    }
  }

  /**
   * The job is idempotent: a second run at the same `now`, with no payment in
   * between, leaves the table as the first run left it.
   */
  lemma RecalculatedIdempotent(s: seq<Item>, plans: map<int, Plan>, now: int)
    ensures Recalculated(Recalculated(s, plans, now), plans, now) == Recalculated(s, plans, now)
  {
    var r := Recalculated(s, plans, now);
    forall i | 0 <= i < |s|
      ensures Refresh(r[i], plans, now) == r[i]
    {
      RefreshOnlyFine(s[i], plans, now);
      assert Total(r[i]) == Total(s[i]) && r[i].dueDate == s[i].dueDate;
    }
  }

  /** The table part-way through a run: recalculated before position k, untouched from k on. */
  function Progress(s: seq<Item>, plans: map<int, Plan>, now: int, k: nat): seq<Item>
    requires k <= |s|
  {
    Recalculated(s, plans, now)[..k] + s[k..]
  }

  /** Where the next chunk query starts: after the last row of a full chunk, or nowhere when the chunk came back short. */
  function NextCursor(chunk: seq<nat>, n: nat): nat
  {
    if |chunk| < ChunkSize then n else chunk[|chunk| - 1] + 1
  }

  /**
   * Processing one chunk extends the recalculated prefix of the table to the
   * chunk's last row, or to the whole table when the chunk came back short.
   */
  lemma ChunkStep(s: seq<Item>, plans: map<int, Plan>, now: int, from: nat, chunk: seq<nat>,
                  before: seq<Item>, after: seq<Item>)
    requires from <= |s| && |after| == |s|
    requires chunk == Take(Matching(s, plans, now, from), ChunkSize)
    requires before == Progress(s, plans, now, from)
    requires forall i :: 0 <= i < |s| ==> after[i] == if i in chunk then Refresh(before[i], plans, now) else before[i]
    ensures chunk != [] ==> from < NextCursor(chunk, |s|)
    ensures from <= NextCursor(chunk, |s|) <= |s|
    ensures after == Progress(s, plans, now, NextCursor(chunk, |s|))
  {
    var next := NextCursor(chunk, |s|);
    MatchingMembers(s, plans, now, from);
    if chunk == [] {
      NothingLeft(s, plans, now, from);
    } else {
      ChunkCovers(s, plans, now, from, chunk);
    }
    MatchingIncreasing(s, plans, now, from);
    var P := Progress(s, plans, now, next);
    forall i | 0 <= i < |s|
      ensures after[i] == P[i]
    {
      if i in chunk {
        var k :| 0 <= k < |chunk| && chunk[k] == i;
        assert from <= i;
      }
    }
  }

  // ---------------------------------------------------------------------
  // The job

  /**
   * One chunk query: the next at most ChunkSize overdue rows at or after
   * position `from`, in id order.
   */
  method FetchChunk(rows: array<Item>, plans: map<int, Plan>, now: int, from: nat) returns (chunk: seq<nat>)
    requires from <= rows.Length
    ensures chunk == Take(Matching(rows[..], plans, now, from), ChunkSize)
  {
    chunk := [];
    var i := from;
    while i < rows.Length && |chunk| < ChunkSize
      invariant from <= i <= rows.Length
      invariant |chunk| <= ChunkSize
      invariant chunk + Matching(rows[..], plans, now, i) == Matching(rows[..], plans, now, from)
    {
      if Overdue(rows[i], plans, now) {
        chunk := chunk + [i];
      }
      i := i + 1;
    }
  }

  /** The body of the chunk callback: overwrite the fine of every row of the chunk. */
  method UpdateChunk(rows: array<Item>, plans: map<int, Plan>, now: int, chunk: seq<nat>)
    requires StrictlyIncreasing(chunk)
    requires forall k :: 0 <= k < |chunk| ==> chunk[k] < rows.Length && Overdue(rows[chunk[k]], plans, now)
    modifies rows
    ensures forall i :: 0 <= i < rows.Length ==>
      rows[i] == if i in chunk then Refresh(old(rows[i]), plans, now) else old(rows[i])
  {
    var k := 0;
    while k < |chunk|
      invariant 0 <= k <= |chunk|
      invariant forall i :: 0 <= i < rows.Length ==>
        rows[i] == if i in chunk[..k] then Refresh(old(rows[i]), plans, now) else old(rows[i])
    {
      var j := chunk[k];
      assert j !in chunk[..k];
      var item := rows[j];
      rows[j] := item.(fine := ItemFine(item, plans[item.installmentId].fineRate, now));
      assert chunk[..k + 1] == chunk[..k] + [j];
      k := k + 1;
    }
    assert chunk[..k] == chunk;
  }

  /**
   * One round of the chunked walk: fetch the next chunk after `from` and run
   * the callback on it. `s` is the table as it was when the run started.
   */
  method RunChunk(rows: array<Item>, plans: map<int, Plan>, now: int, from: nat, ghost s: seq<Item>)
    returns (chunk: seq<nat>)
    requires from <= |s| && rows[..] == Progress(s, plans, now, from)
    modifies rows
    ensures chunk == Take(Matching(s, plans, now, from), ChunkSize)
    ensures chunk != [] ==> from < NextCursor(chunk, |s|)
    ensures from <= NextCursor(chunk, |s|) <= |s|
    ensures rows[..] == Progress(s, plans, now, NextCursor(chunk, |s|))
  {
    ghost var before := rows[..];
    MatchingFrame(before, s, plans, now, from);
    chunk := FetchChunk(rows, plans, now, from);
    ChunkShape(s, plans, now, from, chunk);
    UpdateChunk(rows, plans, now, chunk);
    ChunkStep(s, plans, now, from, chunk, before, rows[..]);
  }

  /**
   * The whole run. Afterwards the table is the recalculated table; the ghost
   * result lists the chunks in the order they were processed.
   */
  method Handle(rows: array<Item>, plans: map<int, Plan>, now: int) returns (ghost batches: seq<seq<nat>>)
    requires IdsAscending(rows[..])
    modifies rows
    ensures rows[..] == Recalculated(old(rows[..]), plans, now)
    // every overdue row is processed exactly once, in ascending id order, in chunks of at most ChunkSize
    ensures Flatten(batches) == Matching(old(rows[..]), plans, now, 0)
    ensures forall b :: b in batches ==> 0 < |b| <= ChunkSize
  {
    ghost var s := rows[..];
    var n := rows.Length;
    var from := 0;
    var more := true;
    batches := [];
    while more
      invariant 0 <= from <= n && rows.Length == n
      invariant rows[..] == Progress(s, plans, now, from)
      invariant Flatten(batches) + Matching(s, plans, now, from) == Matching(s, plans, now, 0)
      invariant !more ==> from == n
      invariant forall b :: b in batches ==> 0 < |b| <= ChunkSize
      decreases more, n - from
    {
      var chunk := RunChunk(rows, plans, now, from, s);
      BatchesStep(s, plans, now, from, batches, chunk);
      if chunk == [] {
        more := false;
      } else {
        batches := batches + [chunk];
        more := |chunk| == ChunkSize;
      }
      from := NextCursor(chunk, n);
    }
  }
}
