/** Generating a table in chunks: the skip of set_state against row-by-row generation, stream by stream. */
module DbgenChunks {
  import opened RandomStreams

  const NONE := -1
  const PART := 0
  const PSUPP := 1
  const SUPP := 2
  const CUST := 3
  const ORDER := 4
  const LINE := 5
  const ORDER_LINE := 6
  const PART_PSUPP := 7

  const STREAMS := 48      // MAX_STREAM + 1
  const O_LCNT_MAX := 7
  const SUPP_PER_PART := 4
  const O_ODATE_SD := 13
  const O_LCNT_SD := 43
  const HVAR_SD := 39
  const TEXT_SD := 5

  // ----- the tables of streams and tables -------------------------------------------------------------------

  /** The table a stream belongs to. */
  function TableOf(i: int): int {
    if i == 5 then NONE
    else if 0 <= i <= 6 || i == 37 then PART
    else if 7 <= i <= 9 then PSUPP
    else if 10 <= i <= 13 || i == 38 || i == 40 || i == 43 then ORDER
    else if 14 <= i <= 25 || i == 39 then LINE
    else if 26 <= i <= 31 then CUST
    else if 32 <= i <= 36 || 44 <= i <= 47 then SUPP
    else NATION_OR_REGION
  }

  const NATION_OR_REGION := 8

  /** The draws per row that a stream is rounded up to. */
  function Boundary(i: int): nat {
    if i == 6 || i == 12 || i == 31 || i == 36 || i == 41 || i == 42 then 2
    else if i == 7 || i == 8 then SUPP_PER_PART
    else if i == 9 then SUPP_PER_PART * 2
    else if 14 <= i <= 24 then O_LCNT_MAX
    else if i == 25 then O_LCNT_MAX * 2
    else if i == 26 || i == 32 then 9
    else if i == 28 || i == 34 then 3
    else if i == 37 then 92
    else 1
  }

  function Child(t: int): int {
    if t == PART || t == PART_PSUPP then PSUPP else if t == ORDER || t == ORDER_LINE then LINE else NONE
  }

  function Base(t: int): nat {
    if t == PART || t == PSUPP || t == PART_PSUPP then 200000 else if t == SUPP then 10000 else 150000
  }

  /** row_stop(t) rounds stream i up. */
  predicate Stopped(t: int, i: int) {
    var m := if t == ORDER_LINE then ORDER else if t == PART_PSUPP then PART else t;
    TableOf(i) == m || TableOf(i) == Child(m)
  }

  // ----- the skip functions of speed_seed.c -----------------------------------------------------------------------

  datatype Sd = SdPart | SdPsupp | SdSupp | SdCust | SdOrder | SdLine(child: bool)

  /** The draws per row that a skip function passes over on stream i. */
  function Skip(f: Sd, i: int): nat {
    match f
    case SdPart => if 0 <= i <= 4 then 1 else if i == 6 then 2 else if i == 37 then 92 else 0
    case SdPsupp => if i == 7 || i == 8 then 4 else if i == 9 then 8 else 0
    case SdSupp =>
      if i == 32 then 9 else if i == 34 then 3 else if i == 36 then 2 else if i == 33 || i == 35 || 44 <= i <= 47 then 1
          else 0
    case SdCust => if i == 26 then 9 else if i == 28 then 3 else if i == 31 then 2
        else if i == 27 || i == 29 || i == 30 then 1 else 0
    case SdOrder => if i == 12 then 2 else if i == 10 || i == 11 || i == 13 || i == 38 || i == 40 || i == 43 then 1
        else 0
    case SdLine(child) =>
      if 14 <= i <= 24 then 7 else if i == 25 then 14 else if child && (i == 13 || i == 43) then 1 else 0
  }

  function GenSeedOf(t: int, child: bool): Sd
    requires 0 <= t <= 7
  {
    if t == PART || t == PART_PSUPP then SdPart
    else if t == PSUPP then SdPsupp
    else if t == SUPP then SdSupp
    else if t == CUST then SdCust
    else if t == LINE then SdLine(child)
    else SdOrder
  }

  /** The draws per row that set_state passes over on stream i: the table's own skip and that of its child. */
  function PerRow(t: int, i: int): nat
    requires 0 <= t <= 7
  {
    Skip(GenSeedOf(t, t == LINE), i) + if Child(t) == NONE then 0 else Skip(GenSeedOf(Child(t), false), i)
  }

  /** The streams that row_stop rounds up are skipped by just as much, but for two that do not reach the rows: HVAR_SD,
      which nothing draws from, and the stream that fills the text pool while a process generates its first row. */
  lemma SkipMatchesStop(t: int, i: int)
    requires 0 <= t <= 7 && 0 <= i < STREAMS && Stopped(t, i)
    ensures PerRow(t, i) == Boundary(i) <==> i != HVAR_SD && i != TEXT_SD
  {
  }

  // ----- rows ---------------------------------------------------------------------------------------------------

  /** How often stream i is drawn in a row, given the streams drawn one after the other. */
  function Count(draws: seq<int>, i: int): nat {
    if draws == [] then 0 else (if draws[0] == i then 1 else 0) + Count(draws[1..], i)
  }

  /** How far a row moves stream i: the draws, rounded up by row_stop. */
  function RowMove(t: int, draws: seq<int>, i: int): nat {
    if Stopped(t, i) && Count(draws, i) <= Boundary(i) then Boundary(i) else Count(draws, i)
  }

  function RowsMove(t: int, rows: seq<seq<int>>, i: int): nat {
    if rows == [] then 0 else RowMove(t, rows[0], i) + RowsMove(t, rows[1..], i)
  }

  /** The draws of a row are legal: no stream of the table or its child is drawn more often than its boundary, but for
      the stream of the text pool, and a lineitem row draws the order date and the line count of its order once. */
  ghost predicate Legal(t: int, draws: seq<int>) {
    && (forall i :: 0 <= i < STREAMS && Stopped(t, i) && i != TEXT_SD && i != HVAR_SD ==>
        Count(draws, i) <= Boundary(i))
    && (t == LINE ==> Count(draws, O_ODATE_SD) == 1 && Count(draws, O_LCNT_SD) == 1)
  }

  /** The streams that reach the rows of table t. */
  predicate Relevant(t: int, i: int) {
    && 0 <= i < STREAMS
    && ((Stopped(t, i) && i != HVAR_SD && i != TEXT_SD) || (t == LINE && (i == O_ODATE_SD || i == O_LCNT_SD)))
  }

  /** Any legal rows move a relevant stream by the skip of as many rows. */
  lemma {:induction false} RowsMoveIs(t: int, rows: seq<seq<int>>, i: int)
    requires 0 <= t <= 7 && Relevant(t, i) && forall k :: 0 <= k < |rows| ==> Legal(t, rows[k])
    ensures RowsMove(t, rows, i) == PerRow(t, i) * |rows|
  {
    hide Boundary, Stopped, Count, TableOf;
    if rows != [] {
      assert Legal(t, rows[0]);
      RowsMoveIs(t, rows[1..], i);
      if Stopped(t, i) {
        SkipMatchesStop(t, i);
      }
      assert PerRow(t, i) * |rows| == PerRow(t, i) + PerRow(t, i) * |rows[1..]|;
    }
  }

  // ----- the seed table ---------------------------------------------------------------------------------------------

  class SeedTable {
    const value: array<int>
    const usage: array<int>
    ghost const start: seq<int>   // the seeds at the start of the program
    ghost var moved: seq<nat>     // how far each stream has moved since

    ghost predicate Valid()
      reads this, value
    {
      && value != usage && value.Length == usage.Length == |start| == |moved| == STREAMS
      && forall i :: 0 <= i < STREAMS ==> 0 <= value[i] < MODULUS && value[i] == Draws(start[i], moved[i])
    }

    constructor (seeds: seq<int>)
      requires |seeds| == STREAMS && forall i :: 0 <= i < STREAMS ==> 0 <= seeds[i] < MODULUS
      ensures Valid() && start == seeds && fresh(value) && fresh(usage)
      ensures forall i :: 0 <= i < STREAMS ==> moved[i] == 0
    {
      value := new int[STREAMS](i requires 0 <= i < |seeds| => seeds[i]);
      usage := new int[STREAMS];
      start := seeds;
      moved := seq(STREAMS, _ => 0);
    }

    /** advanceStream for the 32-bit generator */
    method AdvanceStream(i: int, n: nat)
      requires Valid() && 0 <= i < STREAMS
      modifies value, this`moved
      ensures Valid() && |old(moved)| == STREAMS && moved == old(moved)[i := old(moved)[i] + n]
    {
      var z := NthElement(n, value[i]);
      DrawsAdd(start[i], moved[i], n);
      value[i] := z;
      moved := moved[i := moved[i] + n];
    }

    /** The streams from a to b move by n. */
    method AdvanceRange(a: int, b: int, n: nat)
      requires Valid() && 0 <= a <= b < STREAMS
      modifies value, this`moved
      ensures Valid() && forall i :: 0 <= i < STREAMS ==> moved[i] == old(moved)[i] + if a <= i <= b then n else 0
    {
      var i := a;
      while i <= b
        invariant a <= i <= b + 1 && Valid()
        invariant forall j :: 0 <= j < STREAMS ==> moved[j] == old(moved)[j] + if a <= j < i then n else 0
      {
        AdvanceStream(i, n);
        i := i + 1;
      }
    }

    method SdPart(skip: nat)
      requires Valid()
      modifies value, this`moved
      ensures Valid() && forall i :: 0 <= i < STREAMS ==> moved[i] == old(moved)[i] + Skip(Sd.SdPart, i) * skip
    {
      AdvanceRange(0, 4, skip);
      AdvanceStream(6, skip * 2);
      AdvanceStream(37, skip * 92);
    }

    method SdPsupp(skip: nat)
      requires Valid()
      modifies value, this`moved
      ensures Valid() && forall i :: 0 <= i < STREAMS ==> moved[i] == old(moved)[i] + Skip(Sd.SdPsupp, i) * skip
    {
      hide Draws;
      var j := 0;
      ghost var sum := 0;
      while j < SUPP_PER_PART
        invariant 0 <= j <= 4 && Valid() && sum == j * skip
        invariant forall i :: 0 <= i < STREAMS ==>
          moved[i] == old(moved)[i] + if i == 7 || i == 8 then sum else if i == 9 then 2 * sum else 0
      {
        AddTimes(j, 1, skip);
        sum := sum + skip;
        AdvanceStream(7, skip);
        AdvanceStream(8, skip);
        AdvanceStream(9, skip * 2);
        j := j + 1;
      }
    }

    method SdSupp(skip: nat)
      requires Valid()
      modifies value, this`moved
      ensures Valid() && forall i :: 0 <= i < STREAMS ==> moved[i] == old(moved)[i] + Skip(Sd.SdSupp, i) * skip
    {
      hide Draws, Valid;
      AdvanceStream(33, skip);
      AdvanceStream(34, 3 * skip);
      AdvanceStream(35, skip);
      AdvanceStream(32, skip * 9);
      AdvanceStream(36, skip * 2);
      AdvanceBbb(skip);
    }

    method AdvanceBbb(skip: nat)
      requires Valid()
      modifies value, this`moved
      ensures Valid() && |old(moved)| == |moved| == STREAMS
      ensures forall i :: 0 <= i < STREAMS ==> moved[i] == old(moved)[i] + if 44 <= i <= 47 then skip else 0
    {
      hide Draws, Valid;
      AdvanceStream(46, skip);
      AdvanceStream(44, skip);
      AdvanceStream(47, skip);
      AdvanceStream(45, skip);
    }

    method SdCust(skip: nat)
      requires Valid()
      modifies value, this`moved
      ensures Valid() && forall i :: 0 <= i < STREAMS ==> moved[i] == old(moved)[i] + Skip(Sd.SdCust, i) * skip
    {
      hide Draws, Valid;
      AdvanceStream(26, skip * 9);
      AdvanceStream(31, skip * 2);
      AdvanceStream(27, skip);
      AdvanceStream(28, 3 * skip);
      AdvanceStream(29, skip);
      AdvanceStream(30, skip);
    }

    method SdOrder(skip: nat)
      requires Valid()
      modifies value, this`moved
      ensures Valid() && forall i :: 0 <= i < STREAMS ==> moved[i] == old(moved)[i] + Skip(Sd.SdOrder, i) * skip
    {
      hide Draws, Valid;
      AdvanceStream(43, skip);
      AdvanceStream(40, skip);
      AdvanceStream(12, skip * 2);
      AdvanceStream(10, skip);
      AdvanceStream(11, skip);
      AdvanceStream(38, skip);
      AdvanceStream(13, skip);
    }

    method SdLine(child: bool, skip: nat)
      requires Valid()
      modifies value, this`moved
      ensures Valid() && forall i :: 0 <= i < STREAMS ==> moved[i] == old(moved)[i] + Skip(Sd.SdLine(child), i) * skip
    {
      hide Draws;
      var j := 0;
      ghost var sum := 0;
      while j < O_LCNT_MAX
        invariant 0 <= j <= 7 && Valid() && sum == j * skip
        invariant forall i :: 0 <= i < STREAMS ==>
          moved[i] == old(moved)[i] + if 14 <= i <= 24 then sum else if i == 25 then 2 * sum else 0
      {
        AddTimes(j, 1, skip);
        sum := sum + skip;
        AdvanceRange(14, 24, skip);
        AdvanceStream(25, skip * 2);
        j := j + 1;
      }
      if child {
        AdvanceStream(O_ODATE_SD, skip);
        AdvanceStream(O_LCNT_SD, skip);
      }
    }

    /** The gen_seed entry of table t in tdefs */
    method GenSeed(t: int, child: bool, skip: nat)
      requires Valid() && 0 <= t <= 7
      modifies value, this`moved
      ensures Valid()
      ensures forall i :: 0 <= i < STREAMS ==> moved[i] == old(moved)[i] + Skip(GenSeedOf(t, child), i) * skip
    {
      hide Draws, Skip;
      if t == PART || t == PART_PSUPP {
        SdPart(skip);
      } else if t == PSUPP {
        SdPsupp(skip);
      } else if t == SUPP {
        SdSupp(skip);
      } else if t == CUST {
        SdCust(skip);
      } else if t == LINE {
        SdLine(child, skip);
      } else {
        SdOrder(skip);
      }
    }

    /** One round of set_state's loop: the table's skip and that of its child. */
    method SkipRows(t: int, rowcount: nat)
      requires Valid() && 0 <= t <= 7
      modifies value, this`moved
      ensures Valid() && forall i :: 0 <= i < STREAMS ==> moved[i] == old(moved)[i] + PerRow(t, i) * rowcount
    {
      hide Draws, Skip;
      GenSeed(t, t == LINE, rowcount);
      if Child(t) != NONE {
        ghost var between := moved;
        GenSeed(Child(t), false, rowcount);
        forall i | 0 <= i < STREAMS
          ensures moved[i] == old(moved)[i] + PerRow(t, i) * rowcount
        {
          AddTimes(Skip(GenSeedOf(t, t == LINE), i), Skip(GenSeedOf(Child(t), false), i), rowcount);
        }
      }
    }

    static lemma AddTimes(a: int, b: int, c: int)
      ensures (a + b) * c == a * c + b * c
    {
    }

    static lemma TimesNext(a: int, r: int, k: int)
      ensures a * (r * (k + 1)) == a * (r * k) + a * r && a * (r * 0) == 0
    {
    }

    /** set_state: every stream moves by the skip of all rows before the step's chunk, and past the left-over rows for a
        step beyond the last chunk.  The result is the number of rows per chunk; what is left over goes to extra. */
    method SetState(t: int, sf: nat, procs: nat, step: nat) returns (result: nat, extra: nat)
      requires Valid() && 0 <= t <= 7 && 1 <= procs
      modifies value, this`moved
      ensures Valid()
      ensures sf == 0 || step == 0 ==> result == 0 && moved == old(moved)
      ensures sf > 0 && step > 0 ==> result == (Base(t) * sf) / procs && extra == (Base(t) * sf) % procs
      ensures sf > 0 && step > 0 ==> forall i :: 0 <= i < STREAMS ==>
                moved[i] == old(moved)[i] + PerRow(t, i) * (result * (step - 1))
                            + if step > procs then Skip(GenSeedOf(t, false), i) * extra else 0
    {
      hide Draws, Skip, PerRow;
      if sf == 0 || step == 0 {
        return 0, 0;
      }
      var rowcount := Base(t) * sf;
      extra := rowcount % procs;
      rowcount := rowcount / procs;
      result := rowcount;
      var k := 0;
      forall i | 0 <= i < STREAMS
        ensures PerRow(t, i) * (result * 0) == 0
      {
        TimesNext(PerRow(t, i), result, 0);
      }
      while k < step - 1
        invariant 0 <= k <= step - 1 && Valid()
        invariant forall i :: 0 <= i < STREAMS ==> moved[i] == old(moved)[i] + PerRow(t, i) * (result * k)
      {
        SkipRows(t, rowcount);
        forall i | 0 <= i < STREAMS
          ensures moved[i] == old(moved)[i] + PerRow(t, i) * (result * (k + 1))
        {
          TimesNext(PerRow(t, i), result, k);
        }
        k := k + 1;
      }
      if step > procs {
        GenSeed(t, false, extra);
      }
    }

    // ----- row by row -------------------------------------------------------------------------------------------

    method RowStart()
      requires Valid()
      modifies usage
      ensures Valid() && forall i :: 0 <= i < STREAMS ==> usage[i] == 0
    {
      var i := 0;
      while i < STREAMS
        invariant 0 <= i <= STREAMS && Valid() && forall j :: 0 <= j < i ==> usage[j] == 0
      {
        usage[i] := 0;
        i := i + 1;
      }
    }

    /** One draw: dss_random with UnifInt */
    method DssRandom(stream: int)
      requires Valid() && 0 <= stream < STREAMS
      modifies value, usage, this`moved
      ensures Valid() && |old(moved)| == STREAMS && moved == old(moved)[stream := old(moved)[stream] + 1]
      ensures forall i :: 0 <= i < STREAMS ==> usage[i] == old(usage[i]) + if i == stream then 1 else 0
    {
      DrawsAdd(start[stream], moved[stream], 1);
      assert Draws(value[stream], 1) == Draws(NextRand(value[stream]), 0);
      value[stream] := NextRand(value[stream]);
      usage[stream] := usage[stream] + 1;
      moved := moved[stream := moved[stream] + 1];
    }

    /** row_stop: the streams of the table and its child are rounded up to their boundary.  A stream that was drawn more
        often stays where it is. */
    method RowStop(t: int)
      requires Valid() && 0 <= t <= 7 && forall i :: 0 <= i < STREAMS ==> usage[i] >= 0
      modifies value, this`moved
      ensures Valid() && forall i :: 0 <= i < STREAMS ==>
        moved[i] == old(moved)[i] + if Stopped(t, i) && usage[i] <= Boundary(i) then Boundary(i) - usage[i] else 0
    {
      hide Draws, Stopped, Boundary;
      var i := 0;
      while i < STREAMS
        invariant 0 <= i <= STREAMS && Valid()
        invariant forall j :: 0 <= j < STREAMS ==>
          moved[j] == old(moved)[j] + if j < i && Stopped(t, j) && usage[j] <= Boundary(j) then Boundary(j) - usage[j]
              else 0
      {
        if Stopped(t, i) && usage[i] <= Boundary(i) {
          AdvanceStream(i, Boundary(i) - usage[i]);
        }
        i := i + 1;
      }
    }

    /** A row of table t that draws from the given streams, one after the other. */
    method GenRow(t: int, draws: seq<int>)
      requires Valid() && 0 <= t <= 7 && forall k :: 0 <= k < |draws| ==> 0 <= draws[k] < STREAMS
      modifies value, usage, this`moved
      ensures Valid() && forall i :: 0 <= i < STREAMS ==> moved[i] == old(moved)[i] + RowMove(t, draws, i)
    {
      hide Draws, Stopped, Boundary;
      RowStart();
      var k := 0;
      while k < |draws|
        invariant 0 <= k <= |draws| && Valid()
        invariant forall i :: 0 <= i < STREAMS ==>
            usage[i] == Count(draws[..k], i) && moved[i] == old(moved)[i] + Count(draws[..k], i)
      {
        DssRandom(draws[k]);
        forall i | 0 <= i < STREAMS
          ensures Count(draws[..k + 1], i) == Count(draws[..k], i) + if i == draws[k] then 1 else 0
        {
          CountSnoc(draws[..k], draws[k], i);
          assert draws[..k + 1] == draws[..k] + [draws[k]];
        }
        k := k + 1;
      }
      assert draws[..k] == draws;
      RowStop(t);
    }

    static lemma {:induction false} CountSnoc(draws: seq<int>, d: int, i: int)
      ensures Count(draws + [d], i) == Count(draws, i) + if i == d then 1 else 0
    {
      if draws != [] {
        CountSnoc(draws[1..], d, i);
        assert (draws + [d])[1..] == draws[1..] + [d];
      }
    }

    /** The rows of gen_tbl, each given by the streams it draws from. */
    method GenTbl(t: int, rows: seq<seq<int>>)
      requires Valid() && 0 <= t <= 7
      requires forall r, k :: 0 <= r < |rows| && 0 <= k < |rows[r]| ==> 0 <= rows[r][k] < STREAMS
      modifies value, usage, this`moved
      ensures Valid() && forall i :: 0 <= i < STREAMS ==> moved[i] == old(moved)[i] + RowsMove(t, rows, i)
    {
      hide Draws, RowMove;
      var r := 0;
      while r < |rows|
        invariant 0 <= r <= |rows| && Valid()
        invariant forall i :: 0 <= i < STREAMS ==>
            moved[i] + RowsMove(t, rows[r..], i) == old(moved)[i] + RowsMove(t, rows, i)
      {
        assert rows[r..][0] == rows[r] && rows[r..][1..] == rows[r + 1..];
        GenRow(t, rows[r]);
        r := r + 1;
      }
    }
  }

  // ----- chunks ---------------------------------------------------------------------------------------------------

  /** Whatever legal rows come before chunk `step`, set_state passes over as many draws as they make, on every stream
      that reaches the table's rows. */
  lemma ChunkMoves(t: int, per: nat, step: nat, rows: seq<seq<int>>, i: int)
    requires 0 <= t <= 7 && 1 <= step && Relevant(t, i) && |rows| == per * (step - 1)
    requires forall k :: 0 <= k < |rows| ==> Legal(t, rows[k])
    ensures PerRow(t, i) * (per * (step - 1)) == RowsMove(t, rows, i)
  {
    RowsMoveIs(t, rows, i);
  }

  /** From this scale on, two streams are drawn with the 64-bit generator. */
  const WIDE_SCALE := 30000

  /** The skip leaves the stream of the text pool alone. */
  lemma PoolNotSkipped(t: int)
    requires 0 <= t <= 7
    ensures PerRow(t, TEXT_SD) == 0
  {
  }

  lemma NoDraws(x: int)
    ensures Draws(x, 0) == x
  {
  }

  /** Chunked against sequential generation from the same seeds: before chunk `step` both have the same seed on every
      stream that reaches the table's rows, and the text pool is still to be filled from its first seed. */
  method ChunkAgainstSequence(seeds: seq<int>, t: int, sf: nat, procs: nat, step: nat, rows: seq<seq<int>>)
    returns (chunked: SeedTable, sequential: SeedTable)
    requires |seeds| == STREAMS && (forall i :: 0 <= i < STREAMS ==> 0 <= seeds[i] < MODULUS)
    requires 0 <= t <= 7 && 1 <= sf < WIDE_SCALE && 1 <= step <= procs
    requires |rows| == (Base(t) * sf) / procs * (step - 1)
    requires forall r, k :: 0 <= r < |rows| && 0 <= k < |rows[r]| ==> 0 <= rows[r][k] < STREAMS
    requires forall k :: 0 <= k < |rows| ==> Legal(t, rows[k])
    ensures chunked.value.Length == sequential.value.Length == STREAMS
    ensures forall i :: Relevant(t, i) ==> chunked.value[i] == sequential.value[i]
    ensures chunked.value[TEXT_SD] == seeds[TEXT_SD]
  {
    hide Relevant, PerRow, RowsMove, Skip, Legal, Draws;
    chunked := new SeedTable(seeds);
    sequential := new SeedTable(seeds);
    var per, extra := chunked.SetState(t, sf, procs, step);
    PoolNotSkipped(t);
    NoDraws(seeds[TEXT_SD]);
    assert PerRow(t, TEXT_SD) * (per * (step - 1)) == 0;
    sequential.GenTbl(t, rows);
    forall i | Relevant(t, i)
      ensures 0 <= i < STREAMS && chunked.value[i] == sequential.value[i]
    {
      RelevantRange(t, i);
      ChunkMoves(t, per, step, rows, i);
    }
  }

  lemma RelevantRange(t: int, i: int)
    requires Relevant(t, i)
    ensures 0 <= i < STREAMS
  {
  }

  /** partial: the first row and the number of rows of chunk s. */
  function First(total: nat, procs: nat, s: nat): int
    requires 1 <= procs && 1 <= s <= procs
  {
    (total / procs) * (s - 1) + 1
  }

  function Rows(total: nat, procs: nat, s: nat): nat
    requires 1 <= procs && 1 <= s <= procs
  {
    total / procs + if s == procs then total % procs else 0
  }

  /** Each chunk starts where the one before it ends; the first starts at row 1 and the last ends at the last row. */
  lemma ChunksMeet(total: nat, procs: nat, s: nat)
    requires 1 <= procs && 1 <= s <= procs
    ensures First(total, procs, 1) == 1
    ensures s < procs ==> First(total, procs, s + 1) == First(total, procs, s) + Rows(total, procs, s)
    ensures s == procs ==> First(total, procs, s) + Rows(total, procs, s) == total + 1
  {
  }

  ghost predicate InChunk(total: nat, procs: nat, s: nat, r: int) {
    1 <= procs && 1 <= s <= procs && First(total, procs, s) <= r < First(total, procs, s) + Rows(total, procs, s)
  }

  lemma {:induction false} ChunksOrdered(total: nat, procs: nat, s: nat, s': nat)
    requires 1 <= procs && 1 <= s < s' <= procs
    ensures First(total, procs, s) + Rows(total, procs, s) <= First(total, procs, s')
    decreases s'
  {
    ChunksMeet(total, procs, s' - 1);
    if s < s' - 1 {
      ChunksOrdered(total, procs, s, s' - 1);
    }
  }

  /** The chunks partition the rows 1 .. total: each row is in a chunk, and in no other. */
  lemma ChunksPartition(total: nat, procs: nat, r: int) returns (s: nat)
    requires 1 <= procs && 1 <= r <= total
    ensures InChunk(total, procs, s, r)
    ensures forall s': nat :: InChunk(total, procs, s', r) ==> s' == s
  {
    s := 1;
    ChunksMeet(total, procs, 1);
    while r >= First(total, procs, s) + Rows(total, procs, s)
      invariant 1 <= s <= procs && First(total, procs, s) <= r
      decreases procs - s
    {
      ChunksMeet(total, procs, s);
      s := s + 1;
    }
    forall s': nat | InChunk(total, procs, s', r)
      ensures s' == s
    {
      if s' < s {
        ChunksOrdered(total, procs, s', s);
      } else if s < s' {
        ChunksOrdered(total, procs, s, s');
      }
    }
  }
}
