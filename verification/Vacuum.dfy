/** The worker's validation of ring items, and what it amounts to over a whole sequence of items. */
module Vacuum {
  import opened Words
  import opened SignalFrames

  const BATCH_SIZE: nat := 256
  const TIMESTAMP_SLACK_NS: u64 := 0

  /** What the worker reads from one ring item; `None` is a size mismatch. */
  type Reading = Option<SignalFrame>

  /** The size check and the timestamp check of the drain loop. */
  predicate Passes(r: Reading, lastTs: u64) {
    r.Some? && !(r.value.timestampNs < SaturatingSub(lastTs, TIMESTAMP_SLACK_NS))
  }

  /** `last_ts_ns` after the readings, one at a time. */
  function LastTs(rs: seq<Reading>): u64 {
    if rs == [] then 0
    else
      var last := LastTs(rs[..|rs| - 1]);
      if Passes(rs[|rs| - 1], last) then rs[|rs| - 1].value.timestampNs else last
  }

  /** Reference: well-sized, and at least as late as every earlier well-sized frame, kept or dropped. */
  ghost predicate Fresh(rs: seq<Reading>, j: nat)
    requires j < |rs|
  {
    rs[j].Some? && forall i | 0 <= i < j && rs[i].Some? :: rs[i].value.timestampNs <= rs[j].value.timestampNs
  }

  /** The indices of the fresh readings, in order. */
  ghost function KeptIdx(rs: seq<Reading>): seq<nat> {
    if rs == [] then []
    else
      var front := KeptIdx(rs[..|rs| - 1]);
      if Fresh(rs, |rs| - 1) then front + [|rs| - 1] else front
  }

  ghost predicate Increasing(s: seq<nat>) {
    forall i, j | 0 <= i < j < |s| :: s[i] < s[j]
  }

  /** The remembered timestamp is the largest seen so far (0 before any), dropped frames included. */
  lemma {:induction false} LastTsIsMax(rs: seq<Reading>)
    ensures forall i | 0 <= i < |rs| && rs[i].Some? :: rs[i].value.timestampNs <= LastTs(rs)
    ensures LastTs(rs) == 0 || exists i :: 0 <= i < |rs| && rs[i].Some? && rs[i].value.timestampNs == LastTs(rs)
  {
    if rs != [] {
      var front := rs[..|rs| - 1];
      LastTsIsMax(front);
      if LastTs(rs) != 0 {
        if Passes(rs[|rs| - 1], LastTs(front)) {
          assert rs[|rs| - 1].value.timestampNs == LastTs(rs);
        } else {
          var i :| 0 <= i < |front| && front[i].Some? && front[i].value.timestampNs == LastTs(front);
          assert rs[i] == front[i];
        }
      }
    }
  }

  /** The incremental check decides exactly the reference condition. */
  lemma PassesIffFresh(front: seq<Reading>, r: Reading)
    ensures Passes(r, LastTs(front)) <==> Fresh(front + [r], |front|)
  {
    LastTsIsMax(front);
    var rs := front + [r];
    if r.Some? && r.value.timestampNs < LastTs(front) {
      var i :| 0 <= i < |front| && front[i].Some? && front[i].value.timestampNs == LastTs(front);
      assert rs[i] == front[i];
    }
  }

  lemma FreshPrefix(rs: seq<Reading>, n: nat, j: nat)
    requires j < n <= |rs|
    ensures Fresh(rs[..n], j) == Fresh(rs, j)
  {
    forall i | 0 <= i < j ensures rs[..n][i] == rs[i] {}
  }

  /** `KeptIdx` lists exactly the fresh indices, increasing. */
  lemma {:induction false} KeptIdxExact(rs: seq<Reading>)
    ensures Increasing(KeptIdx(rs))
    ensures forall x | x in KeptIdx(rs) :: x < |rs| && Fresh(rs, x)
    ensures forall j: nat | j < |rs| && Fresh(rs, j) :: j in KeptIdx(rs)
    ensures |KeptIdx(rs)| <= |rs|
  {
    if rs != [] {
      var n := |rs| - 1;
      var front := rs[..n];
      KeptIdxExact(front);
      forall j: nat | j < n ensures Fresh(front, j) == Fresh(rs, j) { FreshPrefix(rs, n, j); }
      forall i | 0 <= i < |KeptIdx(front)| ensures KeptIdx(front)[i] < n { assert KeptIdx(front)[i] in KeptIdx(front); }
    }
  }

  /** The indices of the readings that are not fresh, in order. */
  ghost function StaleIdx(rs: seq<Reading>): seq<nat> {
    if rs == [] then []
    else
      var front := StaleIdx(rs[..|rs| - 1]);
      if Fresh(rs, |rs| - 1) then front else front + [|rs| - 1]
  }

  /** `StaleIdx` lists exactly the other indices. */
  lemma {:induction false} StaleIdxExact(rs: seq<Reading>)
    ensures Increasing(StaleIdx(rs))
    ensures forall x | x in StaleIdx(rs) :: x < |rs| && !Fresh(rs, x)
    ensures forall j: nat | j < |rs| && !Fresh(rs, j) :: j in StaleIdx(rs)
    ensures |StaleIdx(rs)| + |KeptIdx(rs)| == |rs|
  {
    if rs != [] {
      var n := |rs| - 1;
      var front := rs[..n];
      StaleIdxExact(front);
      forall j: nat | j < n ensures Fresh(front, j) == Fresh(rs, j) { FreshPrefix(rs, n, j); }
      forall i | 0 <= i < |StaleIdx(front)| ensures StaleIdx(front)[i] < n { assert StaleIdx(front)[i] in StaleIdx(front); }
    }
  }

  lemma KeptIdxSnoc(front: seq<Reading>, r: Reading)
    ensures KeptIdx(front + [r]) == if Passes(r, LastTs(front)) then KeptIdx(front) + [|front|] else KeptIdx(front)
    ensures LastTs(front + [r]) == if Passes(r, LastTs(front)) then r.value.timestampNs else LastTs(front)
  {
    assert (front + [r])[..|front|] == front;
    PassesIffFresh(front, r);
  }

  /** The one-at-a-time fold: what each reading adds to the kept frames. */
  function Fold(rs: seq<Reading>): seq<SignalFrame> {
    if rs == [] then []
    else
      var front := rs[..|rs| - 1];
      if Passes(rs[|rs| - 1], LastTs(front)) then Fold(front) + [rs[|rs| - 1].value] else Fold(front)
  }

  ghost predicate FramesAt(rs: seq<Reading>, idx: seq<nat>, frames: seq<SignalFrame>) {
    |frames| == |idx| && forall i | 0 <= i < |idx| :: idx[i] < |rs| && rs[idx[i]] == Some(frames[i])
  }

  /** The fold is the subsequence of fresh frames. */
  lemma {:induction false} FoldIsKept(rs: seq<Reading>)
    ensures FramesAt(rs, KeptIdx(rs), Fold(rs))
  {
    if rs != [] {
      var front, r := rs[..|rs| - 1], rs[|rs| - 1];
      assert rs == front + [r];
      FoldIsKept(front);
      KeptIdxSnoc(front, r);
    }
  }

  lemma FramesAtPrefix(rs: seq<Reading>, n: nat, idx: seq<nat>, frames: seq<SignalFrame>)
    requires n <= |rs| && FramesAt(rs[..n], idx, frames)
    ensures FramesAt(rs, idx, frames)
  {
    forall i | 0 <= i < |idx| ensures idx[i] < |rs| && rs[idx[i]] == Some(frames[i]) {
      assert rs[..n][idx[i]] == rs[idx[i]];
    }
  }

  lemma FramesAtSplit(rs: seq<Reading>, a: seq<nat>, b: seq<nat>, frames: seq<SignalFrame>)
    requires FramesAt(rs, a + b, frames)
    ensures FramesAt(rs, a, frames[..|a|]) && FramesAt(rs, b, frames[|a|..])
  {
    forall i | 0 <= i < |a| ensures a[i] < |rs| && rs[a[i]] == Some(frames[i]) { assert (a + b)[i] == a[i]; }
    forall i | 0 <= i < |b| ensures b[i] < |rs| && rs[b[i]] == Some(frames[|a| + i]) { assert (a + b)[|a| + i] == b[i]; }
  }

  lemma FramesAtUnique(rs: seq<Reading>, idx: seq<nat>, f: seq<SignalFrame>, g: seq<SignalFrame>)
    requires FramesAt(rs, idx, f) && FramesAt(rs, idx, g)
    ensures f == g
  {
    forall i | 0 <= i < |f| ensures f[i] == g[i] {
      assert rs[idx[i]] == Some(f[i]) == Some(g[i]);
    }
  }
}
