/** Transaction sequencing and chunking. */
module Txn {
  import opened Model

  // ----- Sequencing -----

  datatype Tagging = Tagging(out: seq<ChangeEvent>, current: string, count: nat)

  function TagStep(t: Tagging, ev: ChangeEvent): Tagging {
    if ev.txnId == "" then t.(out := t.out + [ev])
    else
      var count := if ev.txnId != t.current then 1 else t.count + 1;
      Tagging(t.out + [ev.(txnSeq := count)], ev.txnId, count)
  }

  function TagAll(events: seq<ChangeEvent>): Tagging {
    if events == [] then Tagging([], "", 0)
    else TagStep(TagAll(events[..|events| - 1]), events[|events| - 1])
  }

  function Sequenced(events: seq<ChangeEvent>): seq<ChangeEvent> {
    TagAll(events).out
  }

  function Tagged(events: seq<ChangeEvent>): seq<ChangeEvent> {
    if events == [] then []
    else
      var last := events[|events| - 1];
      Tagged(events[..|events| - 1]) + if last.txnId == "" then [] else [last]
  }

  /** One plus the number of equal ids immediately before index `j`. */
  function RunIndex(events: seq<ChangeEvent>, j: nat): nat
    requires j < |events|
  {
    if j == 0 || events[j - 1].txnId != events[j].txnId then 1 else RunIndex(events, j - 1) + 1
  }

  lemma {:induction false} RunIndexOfPrefix(events: seq<ChangeEvent>, more: seq<ChangeEvent>, j: nat)
    requires j < |events|
    ensures RunIndex(events + more, j) == RunIndex(events, j)
  {
    if j == 0 {
    } else {
      RunIndexOfPrefix(events, more, j - 1);
    }
  }

  lemma {:induction false} TagAllShape(events: seq<ChangeEvent>)
    ensures |TagAll(events).out| == |events|
    ensures forall i | 0 <= i < |events| ::
              TagAll(events).out[i] == events[i].(txnSeq := TagAll(events).out[i].txnSeq)
    ensures forall i | 0 <= i < |events| && events[i].txnId == "" :: TagAll(events).out[i] == events[i]
  {
    if events == [] {
    } else {
      TagAllShape(events[..|events| - 1]);
    }
  }

  ghost predicate CountsRuns(ids: seq<ChangeEvent>, t: Tagging) {
    if ids == [] then t.current == "" && t.count == 0
    else
      var last := |ids| - 1;
      ids[last].txnId != "" && t.current == ids[last].txnId && t.count == RunIndex(ids, last)
  }

  lemma {:induction false} TagAllCounts(events: seq<ChangeEvent>)
    ensures CountsRuns(Tagged(events), TagAll(events))
  {
    if events == [] {
    } else {
      var n := |events| - 1;
      TagAllCounts(events[..n]);
      var ids := Tagged(events[..n]);
      if events[n].txnId == "" {
        assert Tagged(events) == ids;
      } else {
        assert Tagged(events) == ids + [events[n]];
        if ids != [] {
          RunIndexOfPrefix(ids, [events[n]], |ids| - 1);
        }
      }
    }
  }

  lemma {:induction false} TagAllIndexes(events: seq<ChangeEvent>)
    ensures |Tagged(TagAll(events).out)| == |Tagged(events)|
    ensures forall j | 0 <= j < |Tagged(events)| ::
              Tagged(TagAll(events).out)[j].txnSeq == RunIndex(Tagged(events), j)
  {
    if events == [] {
    } else {
      var n := |events| - 1;
      TagAllIndexes(events[..n]);
      var t, ids := TagAll(events[..n]), Tagged(events[..n]);
      var out := TagAll(events).out;
      assert out[..|out| - 1] == t.out;
      if events[n].txnId == "" {
        assert Tagged(out) == Tagged(t.out);
        assert Tagged(events) == ids;
      } else {
        assert Tagged(out) == Tagged(t.out) + [out[|out| - 1]];
        assert Tagged(events) == ids + [events[n]];
        forall j | 0 <= j < |ids|
          ensures RunIndex(Tagged(events), j) == RunIndex(ids, j)
        {
          RunIndexOfPrefix(ids, [events[n]], j);
        }
        TagAllCounts(events);
        assert out[|out| - 1].txnSeq == TagAll(events).count;
      }
    }
  }

  /** Sequencing numbers each tagged event by its place in the run of equal ids,
      untagged events being invisible to the runs, and changes nothing else. */
  lemma {:induction false} SequencedIsRunIndex(events: seq<ChangeEvent>)
    ensures |Sequenced(events)| == |events|
    ensures forall i | 0 <= i < |events| ::
              Sequenced(events)[i] == events[i].(txnSeq := Sequenced(events)[i].txnSeq)
    ensures forall i | 0 <= i < |events| && events[i].txnId == "" :: Sequenced(events)[i] == events[i]
    ensures |Tagged(Sequenced(events))| == |Tagged(events)|
    ensures forall j | 0 <= j < |Tagged(events)| ::
              Tagged(Sequenced(events))[j].txnSeq == RunIndex(Tagged(events), j)
  {
    TagAllShape(events);
    TagAllIndexes(events);
  }

  /** A batch that carries one whole transaction is numbered 1, 2, 3, ... */
  lemma {:induction false} SequencedSingleTransaction(events: seq<ChangeEvent>, txn: string)
    requires txn != "" && forall e | e in events :: e.txnId == txn
    ensures |Sequenced(events)| == |events|
    ensures forall i | 0 <= i < |events| ::
              Sequenced(events)[i].txnId == txn && Sequenced(events)[i].txnSeq == i + 1
    ensures events != [] ==> TagAll(events).current == txn && TagAll(events).count == |events|
  {
    if events == [] {
    } else {
      SequencedSingleTransaction(events[..|events| - 1], txn);
      assert events[|events| - 1] in events;
    }
  }

  // ----- Chunking -----

  function Chunks(events: seq<ChangeEvent>, size: nat): seq<seq<ChangeEvent>>
    requires size > 0
    decreases |events|
  {
    if events == [] then []
    else if |events| <= size then [events]
    else [events[..size]] + Chunks(events[size..], size)
  }

  function Flatten(groups: seq<seq<ChangeEvent>>): seq<ChangeEvent> {
    if groups == [] then [] else groups[0] + Flatten(groups[1..])
  }

  /** Concatenating the groups gives back the input; every group is nonempty, at
      most `size` long, and all but the last are full. */
  lemma {:induction false} ChunksRoundTrip(events: seq<ChangeEvent>, size: nat)
    requires size > 0
    ensures Flatten(Chunks(events, size)) == events
    ensures forall i | 0 <= i < |Chunks(events, size)| :: 0 < |Chunks(events, size)[i]| <= size
    ensures forall i | 0 <= i < |Chunks(events, size)| - 1 :: |Chunks(events, size)[i]| == size
    decreases |events|
  {
    if events == [] {
    } else if |events| <= size {
      assert Flatten([events]) == events + Flatten([]);
    } else {
      ChunksRoundTrip(events[size..], size);
      assert Chunks(events, size)[1..] == Chunks(events[size..], size);
      assert events == events[..size] + events[size..];
    }
  }

  class TxnSplitter {
    const maxGroup: nat

    constructor (maxGroup: int)
      ensures this.maxGroup == if maxGroup <= 0 then 200 else maxGroup
      ensures Valid()
    {
      this.maxGroup := if maxGroup <= 0 then 200 else maxGroup;
    }

    ghost predicate Valid() {
      maxGroup > 0
    }

    method Sequence(events: seq<ChangeEvent>) returns (out: seq<ChangeEvent>)
      ensures out == Sequenced(events)
    {
      out := [];
      var txnSeq := 0;
      var currentTxn := "";
      for i := 0 to |events|
        invariant Tagging(out, currentTxn, txnSeq) == TagAll(events[..i])
      {
        assert events[..i + 1][..i] == events[..i];
        var ev := events[i];
        if ev.txnId != "" && ev.txnId != currentTxn {
          currentTxn := ev.txnId;
          txnSeq := 0;
        }
        if ev.txnId != "" {
          txnSeq := txnSeq + 1;
          ev := ev.(txnSeq := txnSeq);
        }
        out := out + [ev];
      }
      assert events[..|events|] == events;
    }

    method Split(events: seq<ChangeEvent>) returns (groups: seq<seq<ChangeEvent>>)
      requires Valid()
      ensures groups == Chunks(events, maxGroup)
    {
      groups := [];
      var start := 0;
      while start < |events|
        invariant start >= 0
        invariant Chunks(events, maxGroup) ==
                  groups + Chunks(events[if start < |events| then start else |events|..], maxGroup)
      {
        var end := start + maxGroup;
        if end > |events| {
          end := |events|;
        }
        var group := events[start..end];
        if start + maxGroup < |events| {
          assert events[start..][..maxGroup] == group;
          assert events[start..][maxGroup..] == events[start + maxGroup..];
        } else {
          assert events[start..] == group;
        }
        groups := groups + [group];
        start := start + maxGroup;
      }
    }
  }
}
