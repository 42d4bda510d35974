/** Telemetry counters that wrap, read one at a time while the workers move them, and the reporter's deltas. */
module Telemetry {
  import opened Words
  import opened SignalFrames

  // ---------------------------------------------------------------------
  // Drop rate in basis points
  // ---------------------------------------------------------------------

  function SaturatingMul(a: u64, b: u64): u64 {
    MulMono(0, a, b);
    if a * b < U64_MOD then a * b else U64_MOD - 1
  }

  function DropRateBps(ok: u64, drop: u64): u64 {
    var total := SaturatingAdd(ok, drop);
    if total == 0 then 0
    else
      QuotientAtMost(SaturatingMul(drop, 10_000), total);
      SaturatingMul(drop, 10_000) / total
  }

  lemma QuotientAtMost(x: nat, d: nat)
    requires d > 0
    ensures 0 <= x / d <= x
  {
    var q := x / d;
    assert x == q * d + x % d;
    MulMono(1, d, q);
    assert 1 * q == q && d * q == q * d;
  }

  lemma QuotientBetween(x: nat, d: nat)
    requires d > 0
    ensures (x / d) * d <= x < (x / d + 1) * d
  {
    assert x == (x / d) * d + x % d;
    assert (x / d + 1) * d == (x / d) * d + d;
  }

  lemma QuotientBelow(x: nat, d: nat, b: nat)
    requires d > 0 && x < b * d
    ensures x / d < b
  {
    QuotientBetween(x, d);
    if x / d >= b { MulMono(b, x / d, d); }
  }

  lemma QuotientMono(x: nat, d: nat, y: nat, e: nat)
    requires d > 0 && e > 0 && x * e <= y * d
    ensures x / d <= y / e
  {
    QuotientBetween(x, d);
    QuotientBetween(y, e);
    CrossCompare(x / d, x, d, y / e, y, e);
  }

  lemma CrossCompare(q: int, x: nat, d: nat, p: int, y: nat, e: nat)
    requires d > 0 && q * d <= x && x * e <= y * d && y < (p + 1) * e
    ensures q <= p
  {
    CrossCancel(q, d, x, e, y);
    CancelMul(q, p, e);
  }

  lemma CrossCancel(q: int, d: nat, x: nat, e: nat, y: nat)
    requires d > 0 && q * d <= x && x * e <= y * d
    ensures q * e <= y
  {
    MulMono(q * d, x, e);
    MulSwap(q, d, e);
    MulSucc(y, d);
    CancelMul(q * e, y, d);
  }

  lemma MulSwap(a: int, b: int, c: int)
    ensures (a * b) * c == (a * c) * b
  {}

  lemma MulSucc(a: int, b: int)
    ensures (a + 1) * b == a * b + b
  {}

  lemma CancelMul(a: int, b: int, d: nat)
    requires a * d < (b + 1) * d
    ensures a <= b
  {
    if a > b { MulMono(b + 1, a, d); }
  }

  /** At most 100 %, whatever the inputs and however they saturate. */
  lemma DropRateBounded(ok: u64, drop: u64)
    ensures DropRateBps(ok, drop) <= 10_000
  {
    var total := SaturatingAdd(ok, drop);
    if total > 0 { QuotientBelow(SaturatingMul(drop, 10_000), total, 10_001); }
  }

  /** Nothing when nothing was dropped, an idle second included. */
  lemma NothingDropped(ok: u64)
    ensures DropRateBps(ok, 0) == 0
  {}

  /**
   * For all inputs: with the total and ten thousand times the drops each cut off at 2^64 - 1, the rate is the floor of
   * their quotient, and 0 of nothing. Where nothing is cut off this is the exact floor of 10000*drop/(ok+drop).
   */
  lemma DropRateExact(ok: u64, drop: u64)
    ensures var total := if ok + drop < 0x1_0000_0000_0000_0000 then ok + drop else 0xFFFF_FFFF_FFFF_FFFF;
            var scaled := if drop * 10_000 < 0x1_0000_0000_0000_0000 then drop * 10_000 else 0xFFFF_FFFF_FFFF_FFFF;
            var r := DropRateBps(ok, drop);
            if total == 0 then r == 0 else r * total <= scaled < (r + 1) * total
  {
    var total := SaturatingAdd(ok, drop);
    if total > 0 { QuotientBetween(SaturatingMul(drop, 10_000), total); }
  }

  /** Where nothing saturates, more drops never lower the rate and more successes never raise it. */
  lemma DropRateMonotone(ok: u64, drop: u64, ok': u64, drop': u64)
    requires ok' <= ok && drop <= drop'
    requires ok + drop < U64_MOD && ok' + drop' < U64_MOD && drop' * 10_000 < U64_MOD
    ensures DropRateBps(ok, drop) <= DropRateBps(ok', drop')
  {
    if ok + drop > 0 && ok' + drop' > 0 {
      CrossMultiply(ok, drop, ok', drop');
      QuotientMono(drop * 10_000, ok + drop, drop' * 10_000, ok' + drop');
    }
  }

  lemma CrossMultiply(ok: nat, drop: nat, ok': nat, drop': nat)
    requires ok' <= ok && drop <= drop'
    ensures (drop * 10_000) * (ok' + drop') <= (drop' * 10_000) * (ok + drop)
  {
    MulMono(drop, drop', ok');
    MulMono(ok', ok, drop');
    var a, b := drop * (ok' + drop'), drop' * (ok + drop);
    assert a == drop * ok' + drop * drop';
    assert b == ok * drop' + drop * drop';
    assert drop' * ok' == ok' * drop';
    MulSwap(drop, 10_000, ok' + drop');
    MulSwap(drop', 10_000, ok + drop);
  }

  /** When everything was dropped the rate says so exactly as long as the multiplication does not saturate. */
  lemma TotalLossExactlyWhen(drop: u64)
    requires drop > 0
    ensures DropRateBps(0, drop) == 10_000 <==> drop * 10_000 < U64_MOD
  {
    if drop * 10_000 < U64_MOD {
      QuotientUnique(drop * 10_000, drop, 10_000, 0);
    } else {
      QuotientBelow(U64_MOD - 1, drop, 10_000);
    }
  }

  // ---------------------------------------------------------------------
  // Deltas of a wrapping total
  // ---------------------------------------------------------------------

  lemma ModAdd(x: nat, y: nat)
    ensures (x % U64_MOD + y) % U64_MOD == (x + y) % U64_MOD
  {
    var q, r := x / U64_MOD, x % U64_MOD;
    var q', r' := (r + y) / U64_MOD, (r + y) % U64_MOD;
    assert x + y == (q + q') * U64_MOD + r';
    QuotientUnique(x + y, U64_MOD, q + q', r');
  }

  lemma ModStep(x: nat)
    ensures x < U64_MOD ==> x % U64_MOD == x
    ensures U64_MOD <= x < 2 * U64_MOD ==> x % U64_MOD == x - U64_MOD
  {}

  /**
   * The saturating difference of two wrapped totals never exceeds the true increment, and equals it exactly when the
   * total did not wrap in between.
   */
  lemma DeltaExactlyWhen(before: nat, d: nat)
    ensures SaturatingSub((before + d) % U64_MOD, before % U64_MOD) <= d
    ensures SaturatingSub((before + d) % U64_MOD, before % U64_MOD) == d <==> before % U64_MOD + d < U64_MOD
  {
    ModAdd(before, d);
    var r := before % U64_MOD;
    if d < U64_MOD { ModStep(r + d); }
  }

  // ---------------------------------------------------------------------
  // The log lines
  // ---------------------------------------------------------------------

  /** One log line, with the totals it was computed from. */
  datatype Line = Line(ok: u64, drop: u64, deltaOk: u64, deltaDrop: u64, dropBps: u64, full: u64)

  /** How many records of each kind a reader has seen, unbounded. */
  datatype Tally = Tally(ok: nat, drop: nat, full: nat)

  predicate AtMost(a: Tally, b: Tally) {
    a.ok <= b.ok && a.drop <= b.drop && a.full <= b.full
  }

  /** The totals shown are those seen, modulo 2^64. */
  predicate Shows(line: Line, seen: Tally) {
    line.ok == seen.ok % U64_MOD && line.drop == seen.drop % U64_MOD && line.full == seen.full % U64_MOD
  }

  /** The delta reported never exceeds the increment since the previous line, and equals it iff the total did not wrap. */
  predicate DeltaOk(delta: u64, prev: nat, now: nat) {
    prev <= now && delta <= now - prev && (delta == now - prev <==> prev % U64_MOD + (now - prev) < U64_MOD)
  }

  predicate LineOk(prev: Tally, seen: Tally, line: Line) {
    && Shows(line, seen) && AtMost(prev, seen)
    && DeltaOk(line.deltaOk, prev.ok, seen.ok) && DeltaOk(line.deltaDrop, prev.drop, seen.drop)
    && line.dropBps == DropRateBps(line.deltaOk, line.deltaDrop) <= 10_000
    && (line.deltaDrop == 0 ==> line.dropBps == 0)
  }

  function LastSeen(seen: seq<Tally>): Tally {
    if seen == [] then Tally(0, 0, 0) else seen[|seen| - 1]
  }

  predicate LinesOk(lines: seq<Line>, seen: seq<Tally>) {
    |lines| == |seen| && forall n | 0 <= n < |lines| :: LineOk(LastSeen(seen[..n]), seen[n], lines[n])
  }

  function DeltasOk(lines: seq<Line>): nat {
    if lines == [] then 0 else DeltasOk(lines[..|lines| - 1]) + lines[|lines| - 1].deltaOk
  }

  function DeltasDrop(lines: seq<Line>): nat {
    if lines == [] then 0 else DeltasDrop(lines[..|lines| - 1]) + lines[|lines| - 1].deltaDrop
  }

  /** A sum of deltas that add up to the total seen exactly as long as the total is below 2^64. */
  lemma AddsUp(sum: nat, prev: nat, delta: u64, now: nat)
    requires sum <= prev && (sum == prev <==> prev < U64_MOD) && DeltaOk(delta, prev, now)
    ensures sum + delta <= now && (sum + delta == now <==> now < U64_MOD)
  {
    ModStep(prev);
  }

  /** The deltas of all lines add up to what was seen last if and only if that is below 2^64, and never to more. */
  lemma {:induction false} DeltasAddUpExactlyWhen(lines: seq<Line>, seen: seq<Tally>)
    requires LinesOk(lines, seen)
    ensures var last := LastSeen(seen);
            && DeltasOk(lines) <= last.ok && DeltasDrop(lines) <= last.drop
            && (DeltasOk(lines) == last.ok <==> last.ok < U64_MOD)
            && (DeltasDrop(lines) == last.drop <==> last.drop < U64_MOD)
  {
    hide DropRateBps, DeltaOk;
    if lines != [] {
      var n := |lines| - 1;
      LinesPrefix(lines, seen, n);
      DeltasAddUpExactlyWhen(lines[..n], seen[..n]);
      var prev := LastSeen(seen[..n]);
      assert LineOk(prev, seen[n], lines[n]);
      AddsUp(DeltasOk(lines[..n]), prev.ok, lines[n].deltaOk, seen[n].ok);
      AddsUp(DeltasDrop(lines[..n]), prev.drop, lines[n].deltaDrop, seen[n].drop);
    }
  }

  lemma LinesPrefix(lines: seq<Line>, seen: seq<Tally>, n: nat)
    requires LinesOk(lines, seen) && n <= |lines|
    ensures LinesOk(lines[..n], seen[..n])
  {
    hide LineOk, LastSeen;
    forall m | 0 <= m < n ensures LineOk(LastSeen(seen[..n][..m]), seen[..n][m], lines[..n][m]) {
      assert seen[..n][..m] == seen[..m];
    }
  }

  lemma LinesSnoc(lines: seq<Line>, seen: seq<Tally>, line: Line, now: Tally)
    requires LinesOk(lines, seen) && LineOk(LastSeen(seen), now, line)
    ensures LinesOk(lines + [line], seen + [now])
  {
    hide LineOk, LastSeen;
    forall m | 0 <= m <= |lines| ensures LineOk(LastSeen((seen + [now])[..m]), (seen + [now])[m], (lines + [line])[m]) {
      assert (seen + [now])[..m] == seen[..m];
      assert m == |lines| ==> seen[..m] == seen;
    }
  }

  // ---------------------------------------------------------------------
  // Counts per CPU, unbounded, and the 64-bit cells that hold them
  // ---------------------------------------------------------------------

  function Sum(s: seq<nat>): nat {
    if s == [] then 0 else Sum(s[..|s| - 1]) + s[|s| - 1]
  }

  ghost predicate Grown(s: seq<nat>, t: seq<nat>) {
    |s| == |t| && forall i | 0 <= i < |s| :: s[i] <= t[i]
  }

  lemma {:induction false} SumGrown(s: seq<nat>, t: seq<nat>)
    requires Grown(s, t)
    ensures Sum(s) <= Sum(t)
  {
    if s != [] { SumGrown(s[..|s| - 1], t[..|t| - 1]); }
  }

  lemma GrownTwice(s: seq<nat>, t: seq<nat>, u: seq<nat>)
    requires Grown(s, t) && Grown(t, u)
    ensures Grown(s, u) && Sum(s) <= Sum(t) <= Sum(u)
  {
    SumGrown(s, t);
    SumGrown(t, u);
  }

  lemma SumSnoc(s: seq<nat>, n: nat)
    requires n < |s|
    ensures Sum(s[..n + 1]) == Sum(s[..n]) + s[n]
  {
    assert s[..n + 1][..n] == s[..n];
  }

  lemma {:induction false} SumOfZeros(s: seq<nat>)
    requires forall i | 0 <= i < |s| :: s[i] == 0
    ensures Sum(s) == 0
  {
    if s != [] { SumOfZeros(s[..|s| - 1]); }
  }

  datatype Kind = Ok | Dropped | Full

  /** One `record_*` call of some worker. */
  datatype Bump = Bump(kind: Kind, cpu: nat)

  /** The counts of one kind after a record call; CPUs out of range are not counted. */
  function Counted(s: seq<nat>, b: Bump, kind: Kind): seq<nat> {
    if b.kind == kind && b.cpu < |s| then s[b.cpu := s[b.cpu] + 1] else s
  }

  function CountedAll(s: seq<nat>, bs: seq<Bump>, kind: Kind): seq<nat> {
    if bs == [] then s else Counted(CountedAll(s, bs[..|bs| - 1], kind), bs[|bs| - 1], kind)
  }

  lemma CountedGrows(s: seq<nat>, b: Bump, kind: Kind)
    ensures Grown(s, Counted(s, b, kind))
  {}

  lemma {:induction false} CountedAllGrows(s: seq<nat>, bs: seq<Bump>, kind: Kind)
    ensures Grown(s, CountedAll(s, bs, kind))
  {
    hide Counted;
    if bs != [] {
      CountedAllGrows(s, bs[..|bs| - 1], kind);
      CountedGrows(CountedAll(s, bs[..|bs| - 1], kind), bs[|bs| - 1], kind);
    }
  }

  /** How many calls of a kind name a CPU in range. */
  function CallsOf(bs: seq<Bump>, kind: Kind, ncpu: nat): nat {
    if bs == [] then 0
    else
      var b := bs[|bs| - 1];
      CallsOf(bs[..|bs| - 1], kind, ncpu) + (if b.kind == kind && b.cpu < ncpu then 1 else 0)
  }

  lemma {:induction false} SumUpdate(s: seq<nat>, i: nat, v: nat)
    requires i < |s|
    ensures Sum(s[i := v]) == Sum(s) - s[i] + v
  {
    var n := |s| - 1;
    if i < n {
      SumUpdate(s[..n], i, v);
      assert s[i := v][..n] == s[..n][i := v];
    } else {
      assert s[i := v][..n] == s[..n];
    }
  }

  /** The sum over the CPUs is the number of record calls made. */
  lemma {:induction false} SumCountsCalls(s: seq<nat>, bs: seq<Bump>, kind: Kind)
    ensures |CountedAll(s, bs, kind)| == |s|
    ensures Sum(CountedAll(s, bs, kind)) == Sum(s) + CallsOf(bs, kind, |s|)
  {
    hide Sum;
    if bs != [] {
      var b, before := bs[|bs| - 1], CountedAll(s, bs[..|bs| - 1], kind);
      SumCountsCalls(s, bs[..|bs| - 1], kind);
      if b.kind == kind && b.cpu < |s| { SumUpdate(before, b.cpu, before[b.cpu] + 1); }
    }
  }

  /** How many such calls are still to come. */
  function CallsIn(script: seq<seq<Bump>>, kind: Kind): nat {
    if script == [] then 0 else CallsOf(script[0], kind, NCPU) + CallsIn(script[1..], kind)
  }

  /** How much of a script of length n is left after k entries. */
  function Shrunk(n: nat, k: nat): nat {
    if n > k then n - k else 0
  }

  ghost predicate Holds(cells: seq<u64>, counts: seq<nat>) {
    |cells| == |counts| == NCPU && forall i | 0 <= i < NCPU :: cells[i] == counts[i] % U64_MOD
  }

  /** The cells of one kind after a record call: `fetch_add` wraps. */
  function Bumped(s: seq<u64>, b: Bump, kind: Kind): seq<u64> {
    if b.kind == kind && b.cpu < |s| then s[b.cpu := WrappingInc(s[b.cpu])] else s
  }

  lemma BumpedHolds(cells: seq<u64>, counts: seq<nat>, b: Bump, kind: Kind)
    requires Holds(cells, counts)
    ensures Holds(Bumped(cells, b, kind), Counted(counts, b, kind))
  {
    if b.kind == kind && b.cpu < NCPU { ModAdd(counts[b.cpu], 1); }
  }

  // ---------------------------------------------------------------------
  // The counters
  // ---------------------------------------------------------------------

  /** The sleep and the loads of one reporter round, between which workers may record. */
  const LOADS_PER_ROUND: nat := 1 + 3 * NCPU

  class Metrics {
    const framesOk: array<u64>
    const framesDropped: array<u64>
    const channelFull: array<u64>
    /** What the workers will record between successive loads of the reporter. */
    var script: seq<seq<Bump>>
    /** How often each CPU has recorded each kind. */
    ghost var okCount: seq<nat>
    ghost var dropCount: seq<nat>
    ghost var fullCount: seq<nat>

    ghost predicate Valid()
      reads this, framesOk, framesDropped, channelFull
    {
      && framesOk != framesDropped && framesOk != channelFull && framesDropped != channelFull
      && Holds(framesOk[..], okCount) && Holds(framesDropped[..], dropCount) && Holds(channelFull[..], fullCount)
    }

    ghost function Count(kind: Kind): seq<nat>
      reads this
    {
      match kind
      case Ok => okCount
      case Dropped => dropCount
      case Full => fullCount
    }

    /** All that was ever recorded. */
    ghost function Now(): Tally
      reads this
    {
      Tally(Sum(okCount), Sum(dropCount), Sum(fullCount))
    }

    /** All that was ever recorded and all that is still to be. */
    ghost function Due(): Tally
      reads this
    {
      Tally(Sum(okCount) + CallsIn(script, Ok), Sum(dropCount) + CallsIn(script, Dropped), Sum(fullCount) + CallsIn(script, Full))
    }

    constructor (script: seq<seq<Bump>>)
      ensures Valid() && fresh(framesOk) && fresh(framesDropped) && fresh(channelFull)
      ensures this.script == script && Now() == Tally(0, 0, 0)
      ensures Due() == Tally(CallsIn(script, Ok), CallsIn(script, Dropped), CallsIn(script, Full))
      ensures framesOk.Length == framesDropped.Length == channelFull.Length == 32
      ensures forall i | 0 <= i < 32 :: framesOk[i] == framesDropped[i] == channelFull[i] == 0
    {
      framesOk := new u64[NCPU](_ => 0);
      framesDropped := new u64[NCPU](_ => 0);
      channelFull := new u64[NCPU](_ => 0);
      this.script := script;
      okCount, dropCount, fullCount := seq(NCPU, _ => 0), seq(NCPU, _ => 0), seq(NCPU, _ => 0);
      new;
      SumOfZeros(okCount);
    }

    /** `record_ok`, `record_drop` and `record_channel_full`: one cell up by one, wrapping; out-of-range CPUs ignored. */
    method Record(b: Bump)
      requires Valid()
      modifies this`okCount, this`dropCount, this`fullCount, framesOk, framesDropped, channelFull
      ensures Valid()
      ensures framesOk[..] == Bumped(old(framesOk[..]), b, Ok)
      ensures framesDropped[..] == Bumped(old(framesDropped[..]), b, Dropped)
      ensures channelFull[..] == Bumped(old(channelFull[..]), b, Full)
      ensures forall kind :: Count(kind) == Counted(old(Count(kind)), b, kind)
    {
      BumpedHolds(framesOk[..], okCount, b, Ok);
      BumpedHolds(framesDropped[..], dropCount, b, Dropped);
      BumpedHolds(channelFull[..], fullCount, b, Full);
      okCount := Counted(okCount, b, Ok);
      dropCount := Counted(dropCount, b, Dropped);
      fullCount := Counted(fullCount, b, Full);
      if b.cpu < NCPU {
        match b.kind
        case Ok => framesOk[b.cpu] := WrappingInc(framesOk[b.cpu]);
        case Dropped => framesDropped[b.cpu] := WrappingInc(framesDropped[b.cpu]);
        case Full => channelFull[b.cpu] := WrappingInc(channelFull[b.cpu]);
      }
    }

    ghost predicate AllGrown(ok: seq<nat>, dropped: seq<nat>, full: seq<nat>)
      reads this
    {
      Grown(ok, okCount) && Grown(dropped, dropCount) && Grown(full, fullCount)
    }

    lemma CountsSized()
      requires Valid()
      ensures |okCount| == |dropCount| == |fullCount| == NCPU
    {}

    /** The workers record what the next script entry says. */
    method Interfere()
      requires Valid()
      modifies this, framesOk, framesDropped, channelFull
      ensures Valid() && AllGrown(old(okCount), old(dropCount), old(fullCount))
      ensures script == (if old(script) == [] then [] else old(script)[1..]) && Due() == old(Due())
      ensures forall kind :: Count(kind) == CountedAll(old(Count(kind)), if old(script) == [] then [] else old(script)[0], kind)
    {
      hide Holds, Counted, Bumped, Sum;
      CountsSized();
      if script == [] { return; }
      var chunk := script[0];
      script := script[1..];
      var i := 0;
      while i < |chunk|
        invariant i <= |chunk| && script == old(script)[1..] && Valid()
        invariant forall kind :: Count(kind) == CountedAll(old(Count(kind)), chunk[..i], kind)
      {
        assert chunk[..i + 1][..i] == chunk[..i];
        Record(chunk[i]);
        i := i + 1;
      }
      assert chunk[..i] == chunk;
      forall kind ensures Grown(old(Count(kind)), Count(kind)) { CountedAllGrows(old(Count(kind)), chunk, kind); }
      SumCountsCalls(old(okCount), chunk, Ok);
      SumCountsCalls(old(dropCount), chunk, Dropped);
      SumCountsCalls(old(fullCount), chunk, Full);
      assert okCount == Count(Ok) && dropCount == Count(Dropped) && fullCount == Count(Full);
      assert Grown(old(Count(Ok)), Count(Ok)) && Grown(old(Count(Dropped)), Count(Dropped)) && Grown(old(Count(Full)), Count(Full));
    }

    function Cells(kind: Kind): array<u64> {
      match kind
      case Ok => framesOk
      case Dropped => framesDropped
      case Full => channelFull
    }

    lemma CellShows(kind: Kind)
      requires Valid()
      ensures |Count(kind)| == Cells(kind).Length == NCPU
      ensures forall i | 0 <= i < NCPU :: Cells(kind)[i] == Count(kind)[i] % U64_MOD
    {}

    /** What the prefix sums of the true counts say about one more load. */
    lemma LoadOne(before: seq<nat>, mid: seq<nat>, count: seq<nat>, i: nat, t: u64, seen: nat)
      requires Grown(before, mid) && Grown(mid, count) && i < |count|
      requires t == seen % U64_MOD && Sum(before[..i]) <= seen <= Sum(mid[..i])
      ensures (t + count[i] % U64_MOD) % U64_MOD == (seen + count[i]) % U64_MOD
      ensures Sum(before[..i + 1]) <= seen + count[i] <= Sum(count[..i + 1])
    {
      SumGrown(mid[..i], count[..i]);
      SumSnoc(count, i);
      SumSnoc(before, i);
      ModAdd(seen, count[i]);
      ModAdd(count[i], t);
    }

    /**
     * Loads one array cell by cell while the workers run, summing with 64-bit arithmetic: the result is, modulo 2^64,
     * a number of records between those made at the start and those made at the end.
     */
    method SumLoads(kind: Kind) returns (t: u64, ghost seen: nat)
      requires Valid()
      modifies this, framesOk, framesDropped, channelFull
      ensures Valid() && AllGrown(old(okCount), old(dropCount), old(fullCount))
      ensures Due() == old(Due()) && |script| == Shrunk(|old(script)|, NCPU)
      ensures t == seen % U64_MOD && old(Sum(Count(kind))) <= seen <= Sum(Count(kind))
    {
      hide Sum, Holds, CountedAll, Due;
      var a := Cells(kind);
      ghost var before := Count(kind);
      CellShows(kind);
      t, seen := 0, 0;
      var i := 0;
      SumOfZeros([]);
      assert before[..0] == [] == Count(kind)[..0];
      while i < NCPU
        invariant i <= NCPU && Valid() && |Count(kind)| == NCPU
        invariant Due() == old(Due()) && |script| == Shrunk(|old(script)|, i)
        invariant AllGrown(old(okCount), old(dropCount), old(fullCount)) && Grown(before, Count(kind))
        invariant t == seen % U64_MOD && Sum(before[..i]) <= seen <= Sum(Count(kind)[..i])
      {
        ghost var mid := Count(kind);
        Interfere();
        CellShows(kind);
        LoadOne(before, mid, Count(kind), i, t, seen);
        t, seen := (t + a[i]) % U64_MOD, seen + Count(kind)[i];
        i := i + 1;
      }
      assert before[..NCPU] == before && Count(kind)[..NCPU] == Count(kind);
    }

    /** Torn snapshot: each total shows, modulo 2^64, a number of records between those at the start and at the end. */
    method Totals() returns (ok: u64, drop: u64, full: u64, ghost seen: Tally)
      requires Valid()
      modifies this, framesOk, framesDropped, channelFull
      ensures Valid() && AllGrown(old(okCount), old(dropCount), old(fullCount))
      ensures Due() == old(Due()) && |script| == Shrunk(|old(script)|, 3 * NCPU)
      ensures AtMost(old(Now()), seen) && AtMost(seen, Now())
      ensures ok == seen.ok % U64_MOD && drop == seen.drop % U64_MOD && full == seen.full % U64_MOD
    {
      hide Sum, Holds, Grown, Due;
      ghost var okSeen, dropSeen, fullSeen;
      ok, okSeen := SumLoads(Ok);
      ghost var ok1, drop1, full1 := okCount, dropCount, fullCount;
      drop, dropSeen := SumLoads(Dropped);
      ghost var ok2, drop2, full2 := okCount, dropCount, fullCount;
      full, fullSeen := SumLoads(Full);
      GrownTwice(old(okCount), ok1, ok2); GrownTwice(old(okCount), ok2, okCount);
      GrownTwice(old(dropCount), drop1, drop2); GrownTwice(old(dropCount), drop2, dropCount);
      GrownTwice(old(fullCount), full1, full2); GrownTwice(old(fullCount), full2, fullCount);
      seen := Tally(okSeen, dropSeen, fullSeen);
    }

    /** One second of the reporter: read the totals, subtract the previous ones, compute the rate. */
    method Round(prevOk: u64, prevDrop: u64, ghost prev: Tally) returns (line: Line, ghost seen: Tally)
      requires Valid() && AtMost(prev, Now()) && prevOk == prev.ok % U64_MOD && prevDrop == prev.drop % U64_MOD
      modifies this, framesOk, framesDropped, channelFull
      ensures Valid() && AllGrown(old(okCount), old(dropCount), old(fullCount))
      ensures Due() == old(Due()) && |script| == Shrunk(|old(script)|, LOADS_PER_ROUND)
      ensures AtMost(old(Now()), seen) && AtMost(seen, Now()) && LineOk(prev, seen, line)
    {
      hide Sum, DropRateBps, Holds, Due;
      Interfere();
      NowGrown(old(okCount), old(dropCount), old(fullCount));
      var ok, drop, full, now := Totals();
      seen := now;
      var deltaOk, deltaDrop := SaturatingSub(ok, prevOk), SaturatingSub(drop, prevDrop);
      DeltaExactlyWhen(prev.ok, seen.ok - prev.ok);
      DeltaExactlyWhen(prev.drop, seen.drop - prev.drop);
      DropRateBounded(deltaOk, deltaDrop);
      NothingDropped(deltaOk);
      line := Line(ok, drop, deltaOk, deltaDrop, DropRateBps(deltaOk, deltaDrop), full);
    }

    lemma NowGrown(ok: seq<nat>, dropped: seq<nat>, full: seq<nat>)
      requires AllGrown(ok, dropped, full)
      ensures AtMost(Tally(Sum(ok), Sum(dropped), Sum(full)), Now())
    {
      hide Sum;
      SumGrown(ok, okCount);
      SumGrown(dropped, dropCount);
      SumGrown(full, fullCount);
    }

    lemma DueIsNow()
      ensures AtMost(Now(), Due()) && (script == [] ==> Due() == Now())
    {
      hide Sum;
    }

    lemma NothingGrown(ok: seq<nat>, dropped: seq<nat>, full: seq<nat>)
      requires ok == okCount && dropped == dropCount && full == fullCount
      ensures AllGrown(ok, dropped, full)
    {}

    lemma GrownOn(ok: seq<nat>, ok': seq<nat>, dropped: seq<nat>, dropped': seq<nat>, full: seq<nat>, full': seq<nat>)
      requires Grown(ok, ok') && Grown(dropped, dropped') && Grown(full, full') && AllGrown(ok', dropped', full')
      ensures AllGrown(ok, dropped, full)
    {}

    /** The reporter loop over the seconds before shutdown. */
    method Report(rounds: nat) returns (lines: seq<Line>, ghost seen: seq<Tally>)
      requires Valid()
      modifies this, framesOk, framesDropped, channelFull
      ensures Valid() && AllGrown(old(okCount), old(dropCount), old(fullCount))
      ensures |lines| == rounds && LinesOk(lines, seen) && AtMost(LastSeen(seen), Now())
      ensures rounds > 0 ==> AtMost(old(Now()), seen[0])
      ensures Due() == old(Due()) && AtMost(Now(), Due())
      ensures rounds > 0 && |old(script)| <= LOADS_PER_ROUND * (rounds - 1) ==> LastSeen(seen) == Due()
      ensures DeltasOk(lines) == LastSeen(seen).ok <==> LastSeen(seen).ok < U64_MOD
      ensures DeltasDrop(lines) == LastSeen(seen).drop <==> LastSeen(seen).drop < U64_MOD
    {
      hide Sum, LineOk, LinesOk, DeltasOk, DeltasDrop, Holds, Valid, Grown, Due;
      NothingGrown(okCount, dropCount, fullCount);
      NoLines();
      var prevOk, prevDrop := 0, 0;
      lines, seen := [], [];
      var r := 0;
      while r < rounds
        invariant r <= rounds && |lines| == |seen| == r && Valid() && LinesOk(lines, seen)
        invariant AllGrown(old(okCount), old(dropCount), old(fullCount))
        invariant AtMost(LastSeen(seen), Now()) && (r > 0 ==> AtMost(old(Now()), seen[0]))
        invariant Due() == old(Due()) && |script| == Shrunk(|old(script)|, LOADS_PER_ROUND * r)
        invariant r > 0 && |old(script)| <= LOADS_PER_ROUND * (r - 1) ==> LastSeen(seen) == Due()
        invariant prevOk == LastSeen(seen).ok % U64_MOD && prevDrop == LastSeen(seen).drop % U64_MOD
      {
        NowGrown(old(okCount), old(dropCount), old(fullCount));
        DueIsNow();
        ghost var ok, dropped, full := okCount, dropCount, fullCount;
        var line, now := Round(prevOk, prevDrop, LastSeen(seen));
        GrownOn(old(okCount), ok, old(dropCount), dropped, old(fullCount), full);
        DueIsNow();
        LinesSnoc(lines, seen, line, now);
        LineShows(LastSeen(seen), now, line);
        lines, seen := lines + [line], seen + [now];
        prevOk, prevDrop := line.ok, line.drop;
        r := r + 1;
      }
      DeltasAddUpExactlyWhen(lines, seen);
      DueIsNow();
    }
  }

  lemma NoLines()
    ensures LinesOk([], [])
  {}

  lemma LineShows(prev: Tally, seen: Tally, line: Line)
    requires LineOk(prev, seen, line)
    ensures Shows(line, seen)
  {}
}
