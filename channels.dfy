/**
 * Channel data on the host: the row view of the multiplexed stream, the two
 * ways read_channels obtains channel columns (one data server per channel
 * when the unit demultiplexes, one reshaped stream when it does not), the
 * stride slicing of pull_plot and pull_data, and the event-signature scan
 * of get_es_indices.
 */
module Channels {
  import opened Common
  import opened Text
  import opened Wire
  import opened DataClient
  import opened Device

  // ---------------------------------------------------------------------------
  // Rows and columns of a multiplexed stream

  /** The stream cut into rows of n samples; the last row may be short. */
  function Rows(data: seq<int>, n: nat): (rows: seq<seq<int>>)
    requires n > 0
    ensures forall i :: 0 <= i < |rows| ==> 0 < |rows[i]| <= n
    decreases |data|
  {
    if data == [] then [] else [data[..Min(n, |data|)]] + Rows(data[Min(n, |data|)..], n)
  }

  function Concat(rows: seq<seq<int>>): seq<int>
  {
    if rows == [] then [] else rows[0] + Concat(rows[1..])
  }

  /** Every row holds exactly n samples. */
  predicate FullRows(rows: seq<seq<int>>, n: nat)
  {
    forall i :: 0 <= i < |rows| ==> |rows[i]| == n
  }

  lemma RowsCons(data: seq<int>, n: nat)
    requires 0 < n <= |data|
    ensures Rows(data, n) == [data[..n]] + Rows(data[n..], n)
  {
  }

  lemma RowsSingle(data: seq<int>, n: nat)
    requires 0 < |data| <= n
    ensures Rows(data, n) == [data]
  {
    assert data[..|data|] == data && data[|data|..] == [];
  }

  lemma ModStep(x: nat, n: nat)
    requires 0 < n <= x
    ensures x % n == (x - n) % n
  {
    DivModUnique(x, n, (x - n) / n + 1, (x - n) % n);
  }

  lemma ModStepRest(data: seq<int>, n: nat)
    requires 0 < n <= |data|
    ensures |data| % n == |data[n..]| % n
  {
    ModStep(|data|, n);
  }

  lemma FullRowsCons(r: seq<int>, rs: seq<seq<int>>, n: nat)
    ensures FullRows([r] + rs, n) <==> |r| == n && FullRows(rs, n)
  {
    var rows := [r] + rs;
    assert rows[0] == r;
    assert forall i :: 0 <= i < |rs| ==> rs[i] == rows[i + 1];
    if |r| == n && FullRows(rs, n) {
      forall i | 0 <= i < |rows| ensures |rows[i]| == n {
        if i > 0 { assert rows[i] == rs[i - 1]; }
      }
    }
  }

  /** The rows cover the stream in order. */
  lemma {:induction false} ConcatRows(data: seq<int>, n: nat)
    requires n > 0
    ensures Concat(Rows(data, n)) == data
    decreases |data|
  {
    if data != [] {
      var m := Min(n, |data|);
      ConcatRows(data[m..], n);
      assert Rows(data, n)[1..] == Rows(data[m..], n);
      assert data[..m] + data[m..] == data;
    }
  }

  /** Cutting full rows that were concatenated gives them back. */
  lemma {:induction false} RowsOfConcat(rows: seq<seq<int>>, n: nat)
    requires n > 0 && FullRows(rows, n)
    ensures Rows(Concat(rows), n) == rows
  {
    if rows != [] {
      var c := Concat(rows);
      assert c == rows[0] + Concat(rows[1..]);
      assert c[..n] == rows[0] && c[n..] == Concat(rows[1..]);
      RowsOfConcat(rows[1..], n);
      RowsCons(c, n);
    }
  }

  /** reshape((-1, n)) succeeds exactly when every row is full. */
  lemma {:induction false} RowsFullIff(data: seq<int>, n: nat)
    requires n > 0
    ensures |data| % n == 0 <==> FullRows(Rows(data, n), n)
    decreases |data|
  {
    if data == [] {
    } else if |data| < n {
      DivModUnique(|data|, n, 0, |data|);
      RowsSingle(data, n);
      FullRowsCons(data, [], n);
      assert [data] + [] == [data];
    } else {
      var rest := data[n..];
      RowsCons(data, n);
      FullRowsCons(data[..n], Rows(rest, n), n);
      ModStepRest(data, n);
      RowsFullIff(rest, n);
    }
  }

  /** Row k starts at sample k * n, as data[k*n : k*n + n] does. */
  lemma {:induction false} RowAt(data: seq<int>, n: nat, k: nat)
    requires n > 0 && k < |Rows(data, n)|
    ensures k * n < |data| && Rows(data, n)[k] == data[k * n..Min(k * n + n, |data|)]
    decreases |data|
  {
    if |data| <= n {
      RowsSingle(data, n);
    } else if k == 0 {
      RowsCons(data, n);
    } else {
      var rest := data[n..];
      RowsCons(data, n);
      assert Rows(data, n)[k] == Rows(rest, n)[k - 1];
      RowAt(rest, n, k - 1);
      ShiftedRow(data, n, k);
    }
  }

  /** Row k - 1 of the stream after its first row is row k of the stream. */
  lemma ShiftedRow(data: seq<int>, n: nat, k: nat)
    requires 0 < n < |data| && k > 0 && (k - 1) * n < |data| - n
    ensures k * n < |data|
    ensures data[n..][(k - 1) * n..Min((k - 1) * n + n, |data| - n)] == data[k * n..Min(k * n + n, |data|)]
  {
    var p := (k - 1) * n;
    assert p + n == k * n;
  }

  /** Every sample position k * n inside the stream starts a row. */
  lemma {:induction false} RowExists(data: seq<int>, n: nat, k: nat)
    requires n > 0 && k * n < |data|
    ensures k < |Rows(data, n)|
    decreases |data|
  {
    if k > 0 {
      var p := (k - 1) * n;
      assert p + n == k * n;
      RowsCons(data, n);
      RowExists(data[n..], n, k - 1);
    }
  }

  /** One column of a table whose rows are all wide enough. */
  function Column(rows: seq<seq<int>>, col: nat): (c: seq<int>)
    requires forall i :: 0 <= i < |rows| ==> col < |rows[i]|
    ensures |c| == |rows| && forall i :: 0 <= i < |rows| ==> c[i] == rows[i][col]
  {
    seq(|rows|, i requires 0 <= i < |rows| => rows[i][col])
  }

  /** numpy's index along an axis of length n: a negative index counts from the end. */
  function AxisIndex(i: int, n: nat): (k: Option<nat>)
    ensures k.Some? <==> -(n as int) <= i < n
    ensures k.Some? ==> k.value < n && (k.value == i || k.value == i + n)
  {
    if 0 <= i < n then Some(i) else if -(n as int) <= i < 0 then Some(i + n) else None
  }

  /** Every channel number c has a column c - 1 among n. */
  predicate ChannelsInRange(channels: seq<int>, n: nat)
  {
    forall j :: 0 <= j < |channels| ==> AxisIndex(channels[j] - 1, n).Some?
  }

  function SelectedColumns(rows: seq<seq<int>>, n: nat, channels: seq<int>): (cols: seq<seq<int>>)
    requires FullRows(rows, n) && ChannelsInRange(channels, n)
    ensures |cols| == |channels|
  {
    seq(|channels|, j requires 0 <= j < |channels| => Column(rows, AxisIndex(channels[j] - 1, n).value))
  }

  /**
   * data.reshape((-1, nchan))[:, np.array(channels) - 1].transpose(): the
   * columns of the channels asked for. An empty channel list makes a float
   * index array, which numpy refuses.
   */
  function SelectColumns(data: seq<int>, nchan: nat, channels: seq<int>): (r: Result<seq<seq<int>>>)
    ensures r.Ok? ==> nchan > 0 && |data| % nchan == 0 && |r.value| == |channels|
    ensures nchan == 0 || |data| % nchan != 0 ==> r == Err(ValueError)
  {
    if nchan == 0 || |data| % nchan != 0 then Err(ValueError)
    else if channels == [] || !ChannelsInRange(channels, nchan) then Err(IndexError)
    else
      RowsFullIff(data, nchan);
      Ok(SelectedColumns(Rows(data, nchan), nchan, channels))
  }

  /** list(range(1, n + 1)) */
  function AllChannels(n: nat): (chs: seq<int>)
    ensures |chs| == n && forall j :: 0 <= j < n ==> chs[j] == j + 1
  {
    seq(n, j => j + 1)
  }

  /** One row of samples, one per channel, at sample i. */
  function Frame(cols: seq<seq<int>>, i: nat): seq<int>
    requires forall j :: 0 <= j < |cols| ==> i < |cols[j]|
  {
    seq(|cols|, j requires 0 <= j < |cols| => cols[j][i])
  }

  /** The multiplexed stream the unit sends: len frames, one sample of every channel each. */
  function Interleave(cols: seq<seq<int>>, len: nat): seq<int>
    requires forall j :: 0 <= j < |cols| ==> |cols[j]| == len
  {
    Concat(seq(len, i requires 0 <= i < len => Frame(cols, i)))
  }

  /** The frames of the channels. */
  function Frames(cols: seq<seq<int>>, len: nat): (frames: seq<seq<int>>)
    requires forall j :: 0 <= j < |cols| ==> |cols[j]| == len
    ensures |frames| == len && FullRows(frames, |cols|)
  {
    seq(len, i requires 0 <= i < len => Frame(cols, i))
  }

  lemma ColumnOfFrames(cols: seq<seq<int>>, len: nat, j: nat)
    requires forall j :: 0 <= j < |cols| ==> |cols[j]| == len
    requires j < |cols|
    ensures Column(Frames(cols, len), j) == cols[j]
  {
  }

  /** Selecting channels of an interleaved stream picks the matching channels. */
  lemma SelectColumnsOfInterleave(cols: seq<seq<int>>, len: nat, chs: seq<int>)
    requires cols != [] && forall j :: 0 <= j < |cols| ==> |cols[j]| == len
    requires chs != [] && ChannelsInRange(chs, |cols|)
    ensures SelectColumns(Interleave(cols, len), |cols|, chs)
         == Ok(seq(|chs|, j requires 0 <= j < |chs| => cols[AxisIndex(chs[j] - 1, |cols|).value]))
  {
    var n := |cols|;
    var frames := Frames(cols, len);
    var data := Interleave(cols, len);
    assert data == Concat(frames);
    RowsOfConcat(frames, n);
    RowsFullIff(data, n);
    var sel := SelectedColumns(frames, n, chs);
    var want := seq(|chs|, j requires 0 <= j < |chs| => cols[AxisIndex(chs[j] - 1, n).value]);
    forall j | 0 <= j < |chs|
      ensures sel[j] == want[j]
    {
      ColumnOfFrames(cols, len, AxisIndex(chs[j] - 1, n).value);
    }
    assert sel == want;
  }

  /** Demultiplexing every channel of an interleaved stream gives back the channels. */
  lemma DemuxRoundTrip(cols: seq<seq<int>>, len: nat)
    requires cols != [] && forall j :: 0 <= j < |cols| ==> |cols[j]| == len
    ensures SelectColumns(Interleave(cols, len), |cols|, AllChannels(|cols|)) == Ok(cols)
  {
    var n := |cols|;
    var chs := AllChannels(n);
    assert ChannelsInRange(chs, n) by {
      forall j | 0 <= j < n
        ensures AxisIndex(chs[j] - 1, n) == Some(j)
      {
      }
    }
    SelectColumnsOfInterleave(cols, len, chs);
    var want := seq(n, j requires 0 <= j < n => cols[AxisIndex(chs[j] - 1, n).value]);
    assert forall j :: 0 <= j < n ==> want[j] == cols[j];
    assert want == cols;
  }

  lemma {:induction false} ConcatLength(rows: seq<seq<int>>, n: nat)
    requires FullRows(rows, n)
    ensures |Concat(rows)| == |rows| * n
  {
    if rows != [] {
      ConcatLength(rows[1..], n);
      assert |Concat(rows)| == n + (|rows| - 1) * n;
    }
  }

  // ---------------------------------------------------------------------------
  // Stride slicing: mux_data[ch-1::nchan]

  /** s[i], s[i + step], ... while inside s. */
  function StrideFrom(s: seq<int>, i: nat, step: nat): seq<int>
    requires step > 0
    decreases |s| - i
  {
    if i >= |s| then [] else [s[i]] + StrideFrom(s, i + step, step)
  }

  /** s[start::step] for a positive step: a negative start counts from the end, clamped to 0. */
  function StrideSlice(s: seq<int>, start: int, step: nat): seq<int>
    requires step > 0
  {
    StrideFrom(s, if start < 0 then Max(start + |s|, 0) else Min(start, |s|), step)
  }

  lemma {:induction false} StrideFromShift(s: seq<int>, i: nat, step: nat)
    requires 0 < step <= |s|
    ensures StrideFrom(s, i + step, step) == StrideFrom(s[step..], i, step)
    decreases |s| - i
  {
    if i + step < |s| {
      StrideFromShift(s, i + step, step);
    }
  }

  /** On concatenated full rows, the stride slice from column c is column c. */
  lemma {:induction false} StrideOfConcat(rows: seq<seq<int>>, n: nat, c: nat)
    requires 0 < n && c < n && FullRows(rows, n)
    ensures StrideFrom(Concat(rows), c, n) == Column(rows, c)
  {
    if rows != [] {
      var data := Concat(rows);
      assert data == rows[0] + Concat(rows[1..]);
      assert data[n..] == Concat(rows[1..]);
      StrideFromShift(data, c, n);
      StrideOfConcat(rows[1..], n, c);
      assert data[c] == rows[0][c];
      assert Column(rows, c) == [rows[0][c]] + Column(rows[1..], c);
    }
  }

  /** [mux[ch-1::nchan] for ch in channels]; a zero step is a ValueError once a slice is taken. */
  function StrideColumns(mux: seq<int>, channels: seq<int>, nchan: nat): (r: Result<seq<seq<int>>>)
    ensures r.Ok? ==> |r.value| == |channels|
  {
    if channels == [] then Ok([])
    else if nchan == 0 then Err(ValueError)
    else Ok(seq(|channels|, j requires 0 <= j < |channels| => StrideSlice(mux, channels[j] - 1, nchan)))
  }

  /** For a whole number of frames, slicing and reshaping select the same samples. */
  lemma StrideColumnsAgreeWithReshape(data: seq<int>, nchan: nat, channels: seq<int>)
    requires nchan > 0 && |data| % nchan == 0 && channels != []
    requires forall j :: 0 <= j < |channels| ==> 1 <= channels[j] <= nchan
    ensures StrideColumns(data, channels, nchan) == SelectColumns(data, nchan, channels)
  {
    RowsFullIff(data, nchan);
    ConcatRows(data, nchan);
    var rows := Rows(data, nchan);
    assert ChannelsInRange(channels, nchan) by {
      forall j | 0 <= j < |channels|
        ensures AxisIndex(channels[j] - 1, nchan) == Some(channels[j] - 1)
      {
      }
    }
    var sel := SelectedColumns(rows, nchan, channels);
    var strided := StrideColumns(data, channels, nchan).value;
    forall j | 0 <= j < |channels|
      ensures strided[j] == sel[j]
    {
      var c := channels[j] - 1;
      assert AxisIndex(c, nchan) == Some(c);
      StrideOfConcat(rows, nchan, c);
      assert strided[j] == StrideFrom(data, c, nchan);
    }
    assert strided == sel;
  }

  // ---------------------------------------------------------------------------
  // The unit as the host sees it

  /**
   * The knobs read_channels and its callers consult, and what each data
   * server sends: streams(ch) is what the server for channel ch delivers
   * (ch 0 is the multiplexed stream).
   */
  datatype Unit = Unit(nchan: nat, data32: string, transient: string, status: seq<int>,
                       aiChannels: nat, streams: int -> seq<seq<Byte>>)

  /** 4 when data32 is '1', else 2. */
  function DataSize(u: Unit): nat
  {
    if u.data32 == "1" then 4 else 2
  }

  /** read_chan(chan, nsam, data_size): a channel other than 0 with nsam 0 reads pre + post samples. */
  function ReadChanSpec(u: Unit, chan: int, nsam: int, dataSize: int): Outcome<seq<int>>
  {
    if chan != 0 && nsam == 0 then
      match Samples(u.status)
      case Err(e) => Done(Err(e))
      case Ok(n) => ChannelReadSpec(u.streams(chan), n, dataSize, MAXBUF)
    else ChannelReadSpec(u.streams(chan), nsam, dataSize, MAXBUF)
  }

  method ReadChan(u: Unit, chan: int, nsam: int, dataSize: int) returns (o: Outcome<seq<int>>)
    ensures o == ReadChanSpec(u, chan, nsam, dataSize)
  {
    var n := nsam;
    if chan != 0 && nsam == 0 {
      var samples := Samples(u.status);
      if samples.Err? {
        return Done(Err(samples.error));
      }
      n := samples.value;
    }
    var cc := new Connection(u.streams(chan));
    o := ChannelRead(cc, n, dataSize, MAXBUF);
  }

  /** The channels argument: () for all channels, a bare int, or a list. */
  datatype ChannelsArg = AllOf | One(ch: int) | Several(chs: seq<int>)

  function NormaliseChannels(arg: ChannelsArg, nchan: nat): seq<int>
  {
    match arg
    case AllOf => AllChannels(nchan)
    case One(ch) => [ch]
    case Several(chs) => chs
  }

  /** Channel by channel from the per-channel servers; the first failure or hang ends the list. */
  function ReadEach(u: Unit, channels: seq<int>, nsam: int, dataSize: int): Outcome<seq<seq<int>>>
  {
    if channels == [] then Done(Ok([]))
    else
      match ReadChanSpec(u, channels[0], nsam, dataSize)
      case Hang => Hang
      case Done(Err(e)) => Done(Err(e))
      case Done(Ok(x)) =>
        match ReadEach(u, channels[1..], nsam, dataSize)
        case Hang => Hang
        case Done(Err(e)) => Done(Err(e))
        case Done(Ok(xs)) => Done(Ok([x] + xs))
  }

  /** A successful list of channels with chx in front; a failure or hang as it is. */
  function Prefixed(chx: seq<seq<int>>, o: Outcome<seq<seq<int>>>): Outcome<seq<seq<int>>>
  {
    match o
    case Done(Ok(xs)) => Done(Ok(chx + xs))
    case _ => o
  }

  lemma PrefixedNil(o: Outcome<seq<seq<int>>>)
    ensures Prefixed([], o) == o
  {
    if o.Done? && o.result.Ok? {
      assert [] + o.result.value == o.result.value;
    }
  }

  lemma PrefixedAppend(chx: seq<seq<int>>, x: seq<int>, o: Outcome<seq<seq<int>>>)
    ensures Prefixed(chx, Prefixed([x], o)) == Prefixed(chx + [x], o)
  {
    if o.Done? && o.result.Ok? {
      assert chx + ([x] + o.result.value) == chx + [x] + o.result.value;
    }
  }

  /** read_channels(channels, nsam) as a function of the unit. */
  function ReadChannelsSpec(u: Unit, arg: ChannelsArg, nsam: int): Outcome<seq<seq<int>>>
  {
    var channels := NormaliseChannels(arg, u.nchan);
    match DemuxState(u.transient)
    case Err(e) => Done(Err(e))
    case Ok(demux) =>
      if demux != 0 then ReadEach(u, channels, nsam, DataSize(u))
      else
        match ReadChanSpec(u, 0, nsam, DataSize(u))
        case Hang => Hang
        case Done(Err(e)) => Done(Err(e))
        case Done(Ok(data)) => Done(SelectColumns(data, u.nchan, channels))
  }

  method ReadChannels(u: Unit, arg: ChannelsArg, nsam: int) returns (o: Outcome<seq<seq<int>>>)
    ensures o == ReadChannelsSpec(u, arg, nsam)
  {
    var channels := NormaliseChannels(arg, u.nchan);
    var dataSize := DataSize(u);
    var demux := DemuxState(u.transient);
    if demux.Err? {
      return Done(Err(demux.error));
    }
    if demux.value != 0 {
      var chx: seq<seq<int>> := [];
      var i := 0;
      assert channels[0..] == channels;
      PrefixedNil(ReadEach(u, channels, nsam, dataSize));
      while i < |channels|
        invariant 0 <= i <= |channels|
        invariant ReadEach(u, channels, nsam, dataSize) == Prefixed(chx, ReadEach(u, channels[i..], nsam, dataSize))
      {
        var x := ReadChan(u, channels[i], nsam, dataSize);
        assert channels[i..][0] == channels[i] && channels[i..][1..] == channels[i + 1..];
        if x.Hang? {
          return Hang;
        }
        if x.result.Err? {
          return Done(Err(x.result.error));
        }
        assert ReadEach(u, channels[i..], nsam, dataSize)
            == Prefixed([x.result.value], ReadEach(u, channels[i + 1..], nsam, dataSize));
        PrefixedAppend(chx, x.result.value, ReadEach(u, channels[i + 1..], nsam, dataSize));
        chx := chx + [x.result.value];
        i := i + 1;
      }
      assert chx + [] == chx;
      return Done(Ok(chx));
    }
    var data := ReadChan(u, 0, nsam, dataSize);
    if data.Hang? {
      return Hang;
    }
    if data.result.Err? {
      return Done(Err(data.result.error));
    }
    o := Done(SelectColumns(data.result.value, u.nchan, channels));
  }

  /** What a channel's server delivers: the samples xs, read either to the end or as pre + post samples. */
  predicate Serves(u: Unit, ch: int, nsam: int, dataSize: int, xs: seq<int>)
  {
    && (dataSize == 1 || dataSize == 2 || dataSize == 4)
    && (forall i :: 0 <= i < |xs| ==> FitsSigned(xs[i], dataSize))
    && Delivered(u.streams(ch)) == EncodeAll(xs, dataSize)
    && (nsam == -1 || (ch != 0 && nsam == 0 && Samples(u.status) == Ok(|xs|) && xs != []))
  }

  lemma ReadChanRoundTrip(u: Unit, ch: int, nsam: int, dataSize: int, xs: seq<int>)
    requires Serves(u, ch, nsam, dataSize, xs)
    ensures ReadChanSpec(u, ch, nsam, dataSize) == Done(Ok(xs))
  {
    if nsam == -1 {
      ChannelReadToEndRoundTrip(u.streams(ch), xs, -1, dataSize, MAXBUF);
    } else {
      ChannelReadRoundTrip(u.streams(ch), xs, dataSize, [], MAXBUF);
      assert EncodeAll(xs, dataSize) + [] == EncodeAll(xs, dataSize);
    }
  }

  /** Reading each channel from its own server gives back every channel, in the order asked. */
  lemma {:induction false} ReadEachRoundTrip(u: Unit, chs: seq<int>, nsam: int, dataSize: int, cols: seq<seq<int>>)
    requires |chs| == |cols| && forall j :: 0 <= j < |chs| ==> Serves(u, chs[j], nsam, dataSize, cols[j])
    ensures ReadEach(u, chs, nsam, dataSize) == Done(Ok(cols))
  {
    forall j | 0 <= j < |chs|
      ensures ReadChanSpec(u, chs[j], nsam, dataSize) == Done(Ok(cols[j]))
    {
      ReadChanRoundTrip(u, chs[j], nsam, dataSize, cols[j]);
    }
    ReadEachOfReads(u, chs, nsam, dataSize, cols);
  }

  /** When every channel in the list reads back its column, ReadEach collects the columns in order. */
  lemma {:induction false} ReadEachOfReads(u: Unit, chs: seq<int>, nsam: int, dataSize: int, cols: seq<seq<int>>)
    requires |chs| == |cols|
    requires forall j :: 0 <= j < |chs| ==> ReadChanSpec(u, chs[j], nsam, dataSize) == Done(Ok(cols[j]))
    ensures ReadEach(u, chs, nsam, dataSize) == Done(Ok(cols))
  {
    if chs != [] {
      assert ReadChanSpec(u, chs[0], nsam, dataSize) == Done(Ok(cols[0]));
      ReadEachOfReads(u, chs[1..], nsam, dataSize, cols[1..]);
      assert [cols[0]] + cols[1..] == cols;
    }
  }

  /** A multiplexed stream of len frames of the channels cols, as the unit sends it on port 0. */
  predicate ServesMuxed(u: Unit, dataSize: int, cols: seq<seq<int>>, len: nat)
  {
    && (dataSize == 1 || dataSize == 2 || dataSize == 4)
    && cols != [] && (forall j :: 0 <= j < |cols| ==> |cols[j]| == len)
    && var mux := Interleave(cols, len);
       (forall i :: 0 <= i < |mux| ==> FitsSigned(mux[i], dataSize))
       && Delivered(u.streams(0)) == EncodeAll(mux, dataSize)
  }

  /** With demux off, read_channels of all channels gives back the channels of the multiplexed stream. */
  lemma ReadChannelsMuxedRoundTrip(u: Unit, nsam: int, cols: seq<seq<int>>, len: nat)
    requires DemuxState(u.transient) == Ok(0) && (nsam == 0 || nsam == -1)
    requires u.nchan == |cols| && ServesMuxed(u, DataSize(u), cols, len)
    ensures ReadChannelsSpec(u, AllOf, nsam) == Done(Ok(cols))
  {
    ChannelReadToEndRoundTrip(u.streams(0), Interleave(cols, len), nsam, DataSize(u), MAXBUF);
    DemuxRoundTrip(cols, len);
  }

  /** With demux on, read_channels gives back what each channel's server sends. */
  lemma ReadChannelsDemuxedRoundTrip(u: Unit, arg: ChannelsArg, nsam: int, cols: seq<seq<int>>)
    requires DemuxState(u.transient).Ok? && DemuxState(u.transient).value != 0
    requires var chs := NormaliseChannels(arg, u.nchan);
      |chs| == |cols| && forall j :: 0 <= j < |chs| ==> Serves(u, chs[j], nsam, DataSize(u), cols[j])
    ensures ReadChannelsSpec(u, arg, nsam) == Done(Ok(cols))
  {
    ReadEachRoundTrip(u, NormaliseChannels(arg, u.nchan), nsam, DataSize(u), cols);
  }

  // ---------------------------------------------------------------------------
  // read_muxed_data

  /**
   * read_muxed_data as written: read_channels((0), -1)[0]. (0) is the int 0,
   * so it asks for channel 0; with demux off that selects column -1 of the
   * reshaped stream, the last channel.
   */
  function ReadMuxedDataAsWritten(u: Unit): Outcome<seq<int>>
  {
    match ReadChannelsSpec(u, One(0), -1)
    case Hang => Hang
    case Done(Err(e)) => Done(Err(e))
    case Done(Ok(chx)) => if chx == [] then Done(Err(IndexError)) else Done(Ok(chx[0]))
  }

  /** read_muxed_data as documented: the whole multiplexed stream of port 0. */
  function ReadMuxedData(u: Unit): Outcome<seq<int>>
  {
    ReadChanSpec(u, 0, -1, DataSize(u))
  }

  /** The corrected read_muxed_data returns the whole multiplexed stream. */
  lemma ReadMuxedDataIsMuxedStream(u: Unit, cols: seq<seq<int>>, len: nat)
    requires ServesMuxed(u, DataSize(u), cols, len)
    ensures ReadMuxedData(u) == Done(Ok(Interleave(cols, len)))
  {
    ChannelReadToEndRoundTrip(u.streams(0), Interleave(cols, len), -1, DataSize(u), MAXBUF);
  }

  /**
   * With demux off, read_muxed_data as written returns the last channel
   * rather than the multiplexed stream.
   */
  lemma ReadMuxedDataAsWrittenSelectsLastChannel(u: Unit, cols: seq<seq<int>>, len: nat)
    requires DemuxState(u.transient) == Ok(0)
    requires u.nchan == |cols| && ServesMuxed(u, DataSize(u), cols, len)
    ensures ReadMuxedDataAsWritten(u) == Done(Ok(cols[|cols| - 1]))
  {
    var n := |cols|;
    var mux := Interleave(cols, len);
    ChannelReadToEndRoundTrip(u.streams(0), mux, -1, DataSize(u), MAXBUF);
    assert ReadChanSpec(u, 0, -1, DataSize(u)) == Done(Ok(mux));
    assert AxisIndex(0 - 1, n) == Some(n - 1);
    assert ChannelsInRange([0], n);
    SelectColumnsOfInterleave(cols, len, [0]);
    var sel := seq(1, j requires 0 <= j < 1 => cols[AxisIndex([0][j] - 1, n).value]);
    assert sel == [cols[n - 1]];
    assert ReadChannelsSpec(u, One(0), -1) == Done(Ok([cols[n - 1]]));
  }

  /** The two differ whenever there are two channels and one frame: the last channel is shorter. */
  lemma ReadMuxedDataAsWrittenDiffers(u: Unit, cols: seq<seq<int>>, len: nat)
    requires DemuxState(u.transient) == Ok(0)
    requires u.nchan == |cols| && ServesMuxed(u, DataSize(u), cols, len)
    requires |cols| >= 2 && len >= 1
    ensures ReadMuxedDataAsWritten(u) != ReadMuxedData(u)
  {
    ReadMuxedDataAsWrittenSelectsLastChannel(u, cols, len);
    ReadMuxedDataIsMuxedStream(u, cols, len);
    var n := |cols|;
    ConcatLength(Frames(cols, len), n);
    assert |Interleave(cols, len)| == len * n;
    MulMonotone(len, 2, n);
  }

  // ---------------------------------------------------------------------------
  // pull_data and pull_plot

  /**
   * pull_data(): the AI channels 1..n, read from the per-channel servers
   * when demux is 1 and sliced out of the multiplexed stream with stride n
   * when it is 0; any other flag leaves the result unbound (NameError).
   */
  function PullData(u: Unit): Outcome<seq<seq<int>>>
  {
    match DemuxState(u.transient)
    case Err(e) => Done(Err(e))
    case Ok(demux) =>
      var channels := AllChannels(u.aiChannels);
      if channels == [] then Done(Err(IndexError))
      else
        var nchan := channels[|channels| - 1];
        if demux == 1 then ReadChannelsSpec(u, Several(channels), -1)
        else if demux == 0 then
          match ReadMuxedData(u)
          case Hang => Hang
          case Done(Err(e)) => Done(Err(e))
          case Done(Ok(mux)) => Done(StrideColumns(mux, channels, nchan))
        else Done(Err(NameError))
  }

  /** pull_data gives back the AI channels whichever way the unit serves them. */
  lemma PullDataRoundTrip(u: Unit, cols: seq<seq<int>>, len: nat)
    requires u.aiChannels == |cols| && cols != [] && DemuxState(u.transient).Ok?
    requires DemuxState(u.transient).value == 0 ==> ServesMuxed(u, DataSize(u), cols, len)
    requires DemuxState(u.transient).value == 1 ==>
      forall j :: 0 <= j < |cols| ==> Serves(u, j + 1, -1, DataSize(u), cols[j])
    requires DemuxState(u.transient).value in {0, 1}
    ensures PullData(u) == Done(Ok(cols))
  {
    var n := |cols|;
    var chs := AllChannels(n);
    if DemuxState(u.transient).value == 0 {
      var mux := Interleave(cols, len);
      ChannelReadToEndRoundTrip(u.streams(0), mux, -1, DataSize(u), MAXBUF);
      DemuxRoundTrip(cols, len);
      StrideColumnsAgreeWithReshape(mux, n, chs);
    } else {
      ReadEachRoundTrip(u, chs, -1, DataSize(u), cols);
    }
  }

  /**
   * pull_plot(channels, demux): demux -1 asks the unit; 1 reads the
   * channels with read_channels, 0 slices them out of the multiplexed
   * stream (a bare int there cannot be iterated); other flags plot nothing.
   */
  function PullPlot(u: Unit, arg: ChannelsArg, demux: int): Outcome<seq<seq<int>>>
  {
    var flag := if demux == -1 then DemuxState(u.transient) else Ok(demux);
    match flag
    case Err(e) => Done(Err(e))
    case Ok(d) =>
      if d == 1 then ReadChannelsSpec(u, arg, 0)
      else if d == 0 then
        match ReadMuxedData(u)
        case Hang => Hang
        case Done(Err(e)) => Done(Err(e))
        case Done(Ok(mux)) =>
          if arg.One? then Done(Err(TypeError))
          else Done(StrideColumns(mux, NormaliseChannels(arg, u.nchan), u.nchan))
      else Done(Ok([]))
  }

  /** pull_plot with demux 1 returns every channel, read from its own port. */
  lemma PullPlotDemuxedRoundTrip(u: Unit, cols: seq<seq<int>>)
    requires DemuxState(u.transient).Ok? && DemuxState(u.transient).value != 0
    requires u.nchan == |cols|
    requires forall j :: 0 <= j < |cols| ==> Serves(u, j + 1, 0, DataSize(u), cols[j])
    ensures PullPlot(u, AllOf, 1) == Done(Ok(cols))
  {
    ReadEachRoundTrip(u, AllChannels(|cols|), 0, DataSize(u), cols);
  }

  /** pull_plot with demux 0 returns every channel, sliced out of the multiplexed stream. */
  lemma PullPlotMuxedRoundTrip(u: Unit, cols: seq<seq<int>>, len: nat)
    requires u.nchan == |cols| && ServesMuxed(u, DataSize(u), cols, len)
    ensures PullPlot(u, AllOf, 0) == Done(Ok(cols))
  {
    var n := |cols|;
    var mux := Interleave(cols, len);
    ReadMuxedDataIsMuxedStream(u, cols, len);
    DemuxRoundTrip(cols, len);
    StrideColumnsAgreeWithReshape(mux, n, AllChannels(n));
  }

  /**
   * The two modes of pull_plot agree on a unit that serves the same
   * channels both ways: per channel (pre + post samples each) and
   * multiplexed.
   */
  lemma PullPlotModesAgree(u: Unit, cols: seq<seq<int>>, len: nat)
    requires DemuxState(u.transient).Ok? && DemuxState(u.transient).value != 0
    requires u.nchan == |cols| && ServesMuxed(u, DataSize(u), cols, len)
    requires forall j :: 0 <= j < |cols| ==> Serves(u, j + 1, 0, DataSize(u), cols[j])
    ensures PullPlot(u, AllOf, 1) == PullPlot(u, AllOf, 0)
  {
    PullPlotDemuxedRoundTrip(u, cols);
    PullPlotMuxedRoundTrip(u, cols, len);
  }
}
