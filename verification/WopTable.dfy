/** The leader's write-op log: an autoincrement table that is appended to, read by ranges and pruned. */
module WopTable {
  import opened Items

  predicate Sorted(log: seq<WopEntry>) {
    forall i, j | 0 <= i < j < |log| :: log[i].seqNo < log[j].seqNo
  }

  predicate Positive(log: seq<WopEntry>) {
    forall i | 0 <= i < |log| :: 0 < log[i].seqNo
  }

  /** The rows numbered above `since`, in table order. */
  function Since(log: seq<WopEntry>, since: int): (rest: seq<WopEntry>)
    ensures |rest| <= |log|
  {
    if log == [] then []
    else if log[0].seqNo > since then [log[0]] + Since(log[1..], since)
    else Since(log[1..], since)
  }

  /** SELECT .. WHERE seq > since ORDER BY seq LIMIT limit. */
  function ListSince(log: seq<WopEntry>, since: int, limit: nat): seq<WopEntry> {
    var rest := Since(log, since);
    if |rest| <= limit then rest else rest[..limit]
  }

  /** DELETE .. WHERE seq < before. */
  function Pruned(log: seq<WopEntry>, before: int): seq<WopEntry> {
    Since(log, before - 1)
  }

  /** How many leading entries are numbered at most `c`. */
  function Upto(log: seq<WopEntry>, c: int): (k: nat)
    ensures k <= |log|
  {
    if log == [] || log[0].seqNo > c then 0 else 1 + Upto(log[1..], c)
  }

  lemma {:induction false} UptoSplits(log: seq<WopEntry>, c: int)
    requires Sorted(log)
    ensures forall i | 0 <= i < |log| :: log[i].seqNo <= c <==> i < Upto(log, c)
  {
    if log != [] && log[0].seqNo <= c {
      UptoSplits(log[1..], c);
      assert forall i | 1 <= i < |log| :: log[i] == log[1..][i - 1];
    }
  }

  lemma UptoIs(log: seq<WopEntry>, c: int, k: nat)
    requires Sorted(log) && k <= |log|
    requires k > 0 ==> log[k - 1].seqNo <= c
    requires k < |log| ==> c < log[k].seqNo
    ensures Upto(log, c) == k
  {
    UptoSplits(log, c);
  }

  lemma {:induction false} AllSince(log: seq<WopEntry>, c: int)
    requires forall i | 0 <= i < |log| :: log[i].seqNo > c
    ensures Since(log, c) == log
  {
    if log != [] {
      AllSince(log[1..], c);
    }
  }

  /** In a sorted table the range query is the stretch after position `Upto`. */
  lemma {:induction false} SinceIsSuffix(log: seq<WopEntry>, c: int)
    requires Sorted(log)
    ensures Since(log, c) == log[Upto(log, c)..]
  {
    if log == [] {
    } else if log[0].seqNo > c {
      AllSince(log, c);
    } else {
      SinceIsSuffix(log[1..], c);
    }
  }

  /** The same after the first entries have been pruned, as long as the reader had passed them. */
  lemma {:induction false} SinceAfterDrop(log: seq<WopEntry>, dropped: nat, c: int)
    requires Sorted(log) && dropped <= Upto(log, c)
    ensures Since(log[dropped..], c) == log[Upto(log, c)..]
  {
    if dropped == 0 {
      SinceIsSuffix(log, c);
      assert log[0..] == log;
    } else {
      SinceAfterDrop(log[1..], dropped - 1, c);
      assert log[1..][dropped - 1..] == log[dropped..];
      assert log[1..][Upto(log[1..], c)..] == log[Upto(log, c)..];
    }
  }

  lemma {:induction false} SinceMembers(log: seq<WopEntry>, c: int)
    ensures forall e :: e in Since(log, c) <==> e in log && e.seqNo > c
  {
    if log != [] {
      SinceMembers(log[1..], c);
      assert log == [log[0]] + log[1..];
    }
  }

  lemma {:induction false} SinceTwice(log: seq<WopEntry>, c: int, d: int)
    requires forall e | e in log && d < e.seqNo :: c < e.seqNo
    ensures Since(Since(log, c), d) == Since(log, d)
  {
    if log != [] {
      assert log[0] in log && forall e | e in log[1..] :: e in log;
      SinceTwice(log[1..], c, d);
      if log[0].seqNo > c {
        assert Since(log, c)[1..] == Since(log[1..], c);
      }
    }
  }

  /** Pruning is invisible to a reader at `since`, whatever its batch limit, exactly when no entry it has
      yet to read is numbered below `before`. */
  lemma PruneInvisibleIff(log: seq<WopEntry>, before: int, since: int)
    ensures (forall limit :: ListSince(Pruned(log, before), since, limit) == ListSince(log, since, limit))
            <==> (forall e | e in log && since < e.seqNo :: before <= e.seqNo)
  {
    if forall e | e in log && since < e.seqNo :: before <= e.seqNo {
      SinceTwice(log, before - 1, since);
    } else {
      var lost :| lost in log && since < lost.seqNo && lost.seqNo < before;
      SinceMembers(log, since);
      SinceMembers(log, before - 1);
      SinceMembers(Pruned(log, before), since);
      var limit := |Since(log, since)| + |Since(Pruned(log, before), since)|;
      assert lost in ListSince(log, since, limit);
      assert lost !in ListSince(Pruned(log, before), since, limit);
    }
  }

  /** The log table as the store mutates it. `last` is the highest number ever handed out, which pruning
      does not give back. */
  class Table {
    var rows: seq<WopEntry>
    var last: nat

    ghost predicate Valid()
      reads this
    {
      Sorted(rows) && Positive(rows) && forall e | e in rows :: e.seqNo <= last
    }

    constructor ()
      ensures Valid() && rows == [] && last == 0
    {
      rows, last := [], 0;
    }

    method AppendWop(op: string, payload: Payload, at: nat) returns (seqNo: int)
      requires Valid()
      modifies this
      ensures Valid()
      ensures rows == old(rows) + [WopEntry(seqNo, op, payload, at)] && last == seqNo
      ensures forall e | e in old(rows) :: e.seqNo < seqNo
    {
      last := last + 1;
      seqNo := last;
      rows := rows + [WopEntry(seqNo, op, payload, at)];
    }

    /** COALESCE(MAX(seq), 0). */
    method LastWopSeq() returns (seqNo: int)
      requires Valid()
      ensures forall e | e in rows :: e.seqNo <= seqNo
      ensures seqNo == 0 || exists e :: e in rows && e.seqNo == seqNo
    {
      if rows == [] {
        return 0;
      }
      assert rows[|rows| - 1] in rows;
      return rows[|rows| - 1].seqNo;
    }

    method PruneWopBefore(before: int) returns (removed: nat)
      requires Valid()
      modifies this`rows
      ensures Valid()
      ensures removed <= |old(rows)| && rows == old(rows)[removed..]
      ensures forall i | 0 <= i < |old(rows)| :: old(rows)[i].seqNo < before <==> i < removed
      ensures rows == Pruned(old(rows), before)
    {
      SinceIsSuffix(rows, before - 1);
      UptoSplits(rows, before - 1);
      removed := |rows| - |Pruned(rows, before)|;
      rows := Pruned(rows, before);
    }
  }
}
