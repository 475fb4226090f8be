/**
 * Pure helpers of the Acq400 unit object: the status accessors, the
 * mother-board clock divisor search, the DEMUX flag, the aggregator site
 * list, the signal-selection string, the pre/post transient setting and the
 * right shift used to scale raw samples.
 */
module Device {
  import opened Common
  import opened Text
  import opened Wire
  import opened Status

  // ---------------------------------------------------------------------------
  // Status accessors

  /** status[k] on the stored status list. */
  function StatusField(status: seq<int>, k: nat): (r: Result<int>)
    ensures r.Ok? <==> k < |status|
    ensures r.Ok? ==> r.value == status[k]
    ensures r.Err? ==> r.error == IndexError
  {
    if k < |status| then Ok(status[k]) else Err(IndexError)
  }

  function State(status: seq<int>): Result<int> { StatusField(status, SF_STATE) }
  function PreSamples(status: seq<int>): Result<int> { StatusField(status, SF_PRE) }
  function PostSamples(status: seq<int>): Result<int> { StatusField(status, SF_POST) }
  function ElapsedSamples(status: seq<int>): Result<int> { StatusField(status, SF_ELAPSED) }

  /** samples() is pre plus post. */
  function Samples(status: seq<int>): Result<int>
  {
    match PreSamples(status)
    case Err(e) => Err(e)
    case Ok(pre) =>
      match PostSamples(status)
      case Err(e) => Err(e)
      case Ok(post) => Ok(pre + post)
  }

  /** demux_status() as written: it reads field SF.DEMUX, which is 5. */
  function DemuxStatusAsWritten(status: seq<int>): Result<int>
  {
    StatusField(status, SF_DEMUX)
  }

  /** The index of the demux field among the five groups the status pattern captures. */
  const DEMUX_FIELD := 4

  /** demux_status() reading the fifth captured group. */
  function DemuxStatus(status: seq<int>): Result<int>
  {
    StatusField(status, DEMUX_FIELD)
  }

  /** Once the monitor has stored a parsed line, demux_status() as written raises IndexError. */
  lemma DemuxStatusAsWrittenFailsOnParsedLine(line: string)
    requires ParseStatus(line).Some?
    ensures DemuxStatusAsWritten(ParseStatus(line).value) == Err(IndexError)
  {
  }

  /** The corrected accessors read back the fields of a formatted status line. */
  lemma StatusAccessorsOfFormattedLine(state: nat, pre: nat, post: nat, elapsed: nat, demux: nat)
    requires state <= 9
    ensures match ParseStatus(FormatStatus(state, pre, post, elapsed, demux))
      case None => false
      case Some(st) =>
        State(st) == Ok(state) && Samples(st) == Ok(pre + post) && ElapsedSamples(st) == Ok(elapsed)
        && DemuxStatus(st) == Ok(demux % 10)
  {
    ParseFormattedStatus(state, pre, post, elapsed, demux);
    AccessorsOfFields(state, pre, post, elapsed, demux % 10);
  }

  /** The accessors on a stored list of the five captured fields. */
  lemma AccessorsOfFields(state: int, pre: int, post: int, elapsed: int, demux: int)
    ensures var st := [state, pre, post, elapsed, demux];
      State(st) == Ok(state) && Samples(st) == Ok(pre + post) && ElapsedSamples(st) == Ok(elapsed)
      && DemuxStatus(st) == Ok(demux)
  {
  }

  // ---------------------------------------------------------------------------
  // set_mb_clk: the divisor search

  /** The default minimum mother-board clock, and the ACQ2106's. */
  const MB_CLK_MIN := 4000000
  const ACQ2106_MB_CLK_MIN := 100000

  /** The divisors tried: range(1, 2000). */
  const MAX_CLKDIV := 1999

  /** What set_mb_clk programs: SIG_CLK_MB_SET and the site-1 CLKDIV. */
  datatype ClockSetting = ClockSetting(mbSet: int, clkdiv: int)

  /** Ceiling of a / b for b > 0. */
  function CeilDiv(a: int, b: int): int
    requires b > 0
  {
    (a + b - 1) / b
  }

  /** CeilDiv(a, b) is the least d with b * d >= a. */
  lemma CeilDivIsLeast(a: int, b: int, d: int)
    requires b > 0 && b * (d - 1) < a <= b * d
    ensures CeilDiv(a, b) == d
  {
    assert b * (d - 1) == b * d - b;
    DivModUnique(a + b - 1, b, d, a + b - 1 - b * d);
  }

  lemma CeilDivCovers(a: int, b: int)
    requires b > 0
    ensures b * CeilDiv(a, b) >= a && b * (CeilDiv(a, b) - 1) < a
  {
    var c := CeilDiv(a, b);
    var m := (a + b - 1) % b;
    assert a + b - 1 == b * c + m && 0 <= m < b;
    assert b * (c - 1) == b * c - b;
  }

  /**
   * The setting set_mb_clk arrives at, in closed form: a rate at or above the
   * minimum is used as is; below it the divisor is the least multiplier that
   * reaches the minimum, provided it is at most 1999.
   */
  function MbClkSetting(hz: int, mbClkMin: int): Result<ClockSetting>
    requires mbClkMin > 0
  {
    if hz >= mbClkMin then Ok(ClockSetting(hz, 1))
    else if hz > 0 && CeilDiv(mbClkMin, hz) <= MAX_CLKDIV then
      Ok(ClockSetting(hz * CeilDiv(mbClkMin, hz), CeilDiv(mbClkMin, hz)))
    else Err(ValueError)
  }

  /** The loop of set_mb_clk over clkdiv in range(1, 2000). */
  method SetMbClk(hz: int, mbClkMin: int) returns (r: Result<ClockSetting>)
    requires mbClkMin > 0
    ensures r == MbClkSetting(hz, mbClkMin)
  {
    if hz >= mbClkMin {
      return Ok(ClockSetting(hz, 1));
    }
    var clkdiv := 1;
    while clkdiv < MAX_CLKDIV + 1
      invariant 1 <= clkdiv <= MAX_CLKDIV + 1
      invariant hz * (clkdiv - 1) < mbClkMin
      invariant forall d :: 1 <= d < clkdiv ==> hz * d < mbClkMin
    {
      if hz * clkdiv >= mbClkMin {
        if hz <= 0 {
          assert false;
        }
        CeilDivIsLeast(mbClkMin, hz, clkdiv);
        return Ok(ClockSetting(hz * clkdiv, clkdiv));
      }
      clkdiv := clkdiv + 1;
    }
    return Err(ValueError);
  }

  lemma MulMonotone(a: int, x: int, y: int)
    requires a > 0 && x <= y
    ensures a * x <= a * y
  {
    assert a * y - a * x == a * (y - x);
  }

  /**
   * The programmed rate reaches the minimum, equals hz times the divisor, and
   * no smaller divisor would have reached it.
   */
  lemma MbClkSettingIsLeastDivisor(hz: int, mbClkMin: int)
    requires mbClkMin > 0 && MbClkSetting(hz, mbClkMin).Ok?
    ensures var s := MbClkSetting(hz, mbClkMin).value;
      && s.mbSet == hz * s.clkdiv && s.mbSet >= mbClkMin && 1 <= s.clkdiv <= MAX_CLKDIV
      && forall d :: 1 <= d < s.clkdiv ==> hz * d < mbClkMin
  {
    if hz < mbClkMin {
      CeilDivCovers(mbClkMin, hz);
      var c := CeilDiv(mbClkMin, hz);
      forall d | 1 <= d < c
        ensures hz * d < mbClkMin
      {
        MulMonotone(hz, d, c - 1);
      }
    }
  }

  /** The search fails, with ValueError, exactly when even 1999 * hz stays below the minimum. */
  lemma MbClkSettingFailsIff(hz: int, mbClkMin: int)
    requires mbClkMin > 0
    ensures MbClkSetting(hz, mbClkMin).Err? <==> hz < mbClkMin && hz * MAX_CLKDIV < mbClkMin
    ensures MbClkSetting(hz, mbClkMin).Err? ==> MbClkSetting(hz, mbClkMin).error == ValueError
  {
    if hz < mbClkMin && hz > 0 {
      CeilDivCovers(mbClkMin, hz);
      var c := CeilDiv(mbClkMin, hz);
      if c > MAX_CLKDIV {
        MulMonotone(hz, MAX_CLKDIV, c - 1);
      } else {
        MulMonotone(hz, c, MAX_CLKDIV);
      }
    } else if hz < 0 {
      MulMonotone(-hz, 0, MAX_CLKDIV);
    }
  }

  /** 1 MHz against the 4 MHz minimum is multiplied by 4. */
  lemma MbClkOneMegahertz()
    ensures MbClkSetting(1000000, MB_CLK_MIN) == Ok(ClockSetting(4000000, 4))
  {
    CeilDivIsLeast(MB_CLK_MIN, 1000000, 4);
  }

  // ---------------------------------------------------------------------------
  // get_demux_state

  const DEMUX_KEY := "DEMUX="

  /**
   * int(transient.split("DEMUX=", 1)[1][0]): the single character after the
   * first "DEMUX=".
   */
  function DemuxState(transient: string): (r: Result<int>)
    ensures r.Ok? ==> 0 <= r.value <= 9
    ensures AfterFirst(transient, DEMUX_KEY).None? ==> r == Err(IndexError)
  {
    match AfterFirst(transient, DEMUX_KEY)
    case None => Err(IndexError)
    case Some(rest) =>
      if rest == [] then Err(IndexError)
      else if IsDigit(rest[0]) then Ok(DigitValue(rest[0]))
      else Err(ValueError)
  }

  /**
   * The flag is read from the first DEMUX= entry, one character only: a digit
   * is the state, anything else raises ValueError, and nothing at all after
   * the key raises IndexError.
   */
  lemma DemuxStateOfTransient(transient: string, i: nat)
    requires OccursAt(transient, DEMUX_KEY, i)
    requires forall k :: 0 <= k < i ==> !OccursAt(transient, DEMUX_KEY, k)
    ensures i + 6 == |transient| ==> DemuxState(transient) == Err(IndexError)
    ensures i + 6 < |transient| && IsDigit(transient[i + 6]) ==>
              DemuxState(transient) == Ok(DigitValue(transient[i + 6]))
    ensures i + 6 < |transient| && !IsDigit(transient[i + 6]) ==> DemuxState(transient) == Err(ValueError)
  {
    assert |DEMUX_KEY| == 6;
    AfterFirstAt(transient, DEMUX_KEY, i);
  }

  /** A transient setting with no DEMUX= entry makes get_demux_state raise IndexError. */
  lemma DemuxStateMissing(transient: string)
    requires forall k :: 0 <= k <= |transient| ==> !OccursAt(transient, DEMUX_KEY, k)
    ensures DemuxState(transient) == Err(IndexError)
  {
  }

  // ---------------------------------------------------------------------------
  // get_aggregator_sites

  /** s0.aggregator.split(' ')[1].split('=')[1].split(','). */
  function AggregatorSites(aggregator: string): (r: Result<seq<string>>)
    ensures r.Ok? ==> |r.value| >= 1
    ensures r.Err? ==> r.error == IndexError
  {
    var words := Split(aggregator, ' ');
    if |words| < 2 then Err(IndexError)
    else
      var kv := Split(words[1], '=');
      if |kv| < 2 then Err(IndexError)
      else Ok(Split(kv[1], ','))
  }

  /** The site list the unit reports in its second word comes back element for element. */
  lemma AggregatorSitesRoundTrip(first: string, key: string, sites: seq<string>, rest: seq<string>)
    requires ' ' !in first && ' ' !in key && '=' !in key
    requires sites != []
    requires forall k :: 0 <= k < |sites| ==> ' ' !in sites[k] && '=' !in sites[k] && ',' !in sites[k]
    requires forall k :: 0 <= k < |rest| ==> ' ' !in rest[k]
    ensures AggregatorSites(Join([first, key + "=" + Join(sites, ',')] + rest, ' ')) == Ok(sites)
  {
    var list := Join(sites, ',');
    JoinAvoids(sites, ',', ' ');
    JoinAvoids(sites, ',', '=');
    var word := key + "=" + list;
    assert ' ' !in word by {
      forall k | 0 <= k < |word| ensures word[k] != ' ' {
        if k < |key| { assert word[k] == key[k]; }
        else if k > |key| { assert word[k] == list[k - |key| - 1]; }
      }
    }
    var parts := [first, word] + rest;
    SplitJoin(parts, ' ');
    SplitHead(key, '=', list);
    assert key + "=" + list == key + ['='] + list;
    SplitNoSeparator(list, '=');
    SplitJoin(sites, ',');
  }

  // ---------------------------------------------------------------------------
  // sigsel

  /**
   * "{},{},{}".format(enable, site + 1 or dx, edge). dx is the text format
   * gives it: a signal line such as "d0" or "d1", or "1" for the default.
   */
  function Sigsel(enable: int, dx: string, site: Option<int>, edge: int): string
  {
    var source := if site.Some? then IntToString(site.value + 1) else dx;
    Join([IntToString(enable), source, IntToString(edge)], ',')
  }

  lemma IntToStringHasNoComma(i: int)
    ensures ',' !in IntToString(i)
  {
    var s := NatToString(if i < 0 then -i else i);
    assert forall k :: 0 <= k < |s| ==> IsDigit(s[k]);
    if i < 0 {
      assert IntToString(i) == "-" + s;
      forall k | 0 <= k < |IntToString(i)| ensures IntToString(i)[k] != ',' {
        if k > 0 { assert IntToString(i)[k] == s[k - 1]; }
      }
    }
  }

  /**
   * The selection string splits back into enable, the source and edge: site + 1
   * when a site is given, otherwise the dx text itself (which must hold no comma).
   */
  lemma SigselParsesBack(enable: int, dx: string, site: Option<int>, edge: int)
    requires site.Some? || ',' !in dx
    ensures var f := Split(Sigsel(enable, dx, site, edge), ',');
      && |f| == 3 && ParseInt(f[0]) == Some(enable)
      && (site.Some? ==> ParseInt(f[1]) == Some(site.value + 1))
      && (site.None? ==> f[1] == dx)
      && ParseInt(f[2]) == Some(edge)
  {
    var source := if site.Some? then IntToString(site.value + 1) else dx;
    IntToStringHasNoComma(enable);
    if site.Some? {
      IntToStringHasNoComma(site.value + 1);
      ParseIntOfIntToString(site.value + 1);
    }
    IntToStringHasNoComma(edge);
    SplitJoin([IntToString(enable), source, IntToString(edge)], ',');
    ParseIntOfIntToString(enable);
    ParseIntOfIntToString(edge);
  }

  // ---------------------------------------------------------------------------
  // configure_pre_post: the guard and the transient setting

  /** NotSet is the early return when pre exceeds post; otherwise the transient text written. */
  datatype PrePostConfig = NotSet | Configured(transient: string)

  function SoftTrigger(trigger: seq<int>): int
    requires |trigger| >= 2
  {
    if trigger[1] == 1 then 1 else 0
  }

  function ConfigurePrePost(pre: int, post: int, trigger: seq<int>): (r: Result<PrePostConfig>)
  {
    if pre > post then Ok(NotSet)
    else if |trigger| < 2 then Err(IndexError)
    else Ok(Configured(PrePostText(pre, post, SoftTrigger(trigger))))
  }

  /** One "KEY=value" word of a knob setting. */
  function KeyWord(key: string, v: int): string
  {
    key + "=" + IntToString(v)
  }

  /** The transient setting: the words PRE=, POST= and SOFT_TRIGGER= separated by single spaces. */
  function PrePostText(pre: int, post: int, trg: int): string
  {
    Join([KeyWord("PRE", pre), KeyWord("POST", post), KeyWord("SOFT_TRIGGER", trg)], ' ')
  }

  /** One "KEY=value" word with an integer value. */
  function KeyValue(word: string): Option<(string, int)>
  {
    var kv := Split(word, '=');
    if |kv| == 2 && ParseInt(kv[1]).Some? then Some((kv[0], ParseInt(kv[1]).value)) else None
  }

  lemma IntToStringHasNoSpaceOrEquals(i: int)
    ensures ' ' !in IntToString(i) && '=' !in IntToString(i)
  {
    var s := NatToString(if i < 0 then -i else i);
    assert forall k :: 0 <= k < |s| ==> IsDigit(s[k]);
    if i < 0 {
      assert IntToString(i) == "-" + s;
      forall k | 0 <= k < |IntToString(i)| ensures IntToString(i)[k] != ' ' && IntToString(i)[k] != '=' {
        if k > 0 { assert IntToString(i)[k] == s[k - 1]; }
      }
    }
  }

  /** A KEY=value word holds no space. */
  lemma KeyWordHasNoSpace(key: string, v: int)
    requires ' ' !in key
    ensures ' ' !in KeyWord(key, v)
  {
    var t := IntToString(v);
    IntToStringHasNoSpaceOrEquals(v);
    var w := key + "=" + t;
    forall k | 0 <= k < |w| ensures w[k] != ' ' {
      if k < |key| { assert w[k] == key[k]; }
      else if k > |key| { assert w[k] == t[k - |key| - 1]; }
    }
  }

  /** A KEY=value word is read back by KeyValue. */
  lemma KeyValueOfKeyWord(key: string, v: int)
    requires '=' !in key
    ensures KeyValue(KeyWord(key, v)) == Some((key, v))
  {
    var t := IntToString(v);
    IntToStringHasNoSpaceOrEquals(v);
    assert KeyWord(key, v) == key + ['='] + t;
    SplitHead(key, '=', t);
    SplitNoSeparator(t, '=');
    ParseIntOfIntToString(v);
  }

  /** The transient setting splits into its three words. */
  lemma PrePostWords(pre: int, post: int, trg: int)
    ensures Split(PrePostText(pre, post, trg), ' ')
         == [KeyWord("PRE", pre), KeyWord("POST", post), KeyWord("SOFT_TRIGGER", trg)]
  {
    KeyWordHasNoSpace("PRE", pre);
    KeyWordHasNoSpace("POST", post);
    KeyWordHasNoSpace("SOFT_TRIGGER", trg);
    SplitJoin([KeyWord("PRE", pre), KeyWord("POST", post), KeyWord("SOFT_TRIGGER", trg)], ' ');
  }

  /**
   * The guard refuses exactly pre > post; otherwise the setting is three
   * KEY=value words carrying pre, post and the soft-trigger flag, which is 1
   * exactly when trigger[1] is 1.
   */
  lemma ConfigurePrePostSetting(pre: int, post: int, trigger: seq<int>)
    ensures ConfigurePrePost(pre, post, trigger) == Ok(NotSet) <==> pre > post
    ensures pre <= post && |trigger| < 2 ==> ConfigurePrePost(pre, post, trigger) == Err(IndexError)
    ensures pre <= post && |trigger| >= 2 ==>
      var w := Split(ConfigurePrePost(pre, post, trigger).value.transient, ' ');
      |w| == 3 && KeyValue(w[0]) == Some(("PRE", pre)) && KeyValue(w[1]) == Some(("POST", post))
      && KeyValue(w[2]) == Some(("SOFT_TRIGGER", if trigger[1] == 1 then 1 else 0))
  {
    if pre <= post && |trigger| >= 2 {
      var trg := SoftTrigger(trigger);
      PrePostWords(pre, post, trg);
      KeyValueOfKeyWord("PRE", pre);
      KeyValueOfKeyWord("POST", post);
      KeyValueOfKeyWord("SOFT_TRIGGER", trg);
    }
  }

  // ---------------------------------------------------------------------------
  // scale_raw: the right shift of the first module

  /** The knobs of a site module that scale_raw consults. */
  datatype ModuleInfo = ModuleInfo(model: string, data32: string, adc18b: string)

  predicate StartsWith(s: string, prefix: string)
  {
    |prefix| <= |s| && s[..|prefix|] == prefix
  }

  /**
   * The right shift chosen from the first module in dict order. With no
   * modules the shift is never bound and the call raises NameError
   * (UnboundLocalError).
   */
  function ScaleShift(modules: seq<ModuleInfo>, volts: bool): (r: Result<nat>)
    ensures r.Err? <==> modules == []
    ensures r.Ok? ==> r.value <= 16
  {
    if modules == [] then Err(NameError)
    else
      var m := modules[0];
      if StartsWith(m.model, "ACQ43") then Ok(8)
      else if m.data32 == "1" then
        (if m.adc18b == "1" then Ok(14 - (if volts then 8 else 0)) else Ok(16 - (if volts then 8 else 0)))
      else Ok(0)
  }

  function Pow2(n: nat): (r: nat)
    ensures r >= 1
  {
    if n == 0 then 1 else 2 * Pow2(n - 1)
  }

  /** np.right_shift on signed samples: floor division by 2**shift. */
  function RightShift(raw: seq<int>, shift: nat): (r: seq<int>)
    ensures |r| == |raw|
  {
    seq(|raw|, i requires 0 <= i < |raw| => raw[i] / Pow2(shift))
  }

  /** scale_raw(raw, volts). */
  function ScaleRaw(modules: seq<ModuleInfo>, raw: seq<int>, volts: bool): Result<seq<int>>
  {
    match ScaleShift(modules, volts)
    case Err(e) => Err(e)
    case Ok(shift) => Ok(RightShift(raw, shift))
  }

  predicate FitsBits(x: int, bits: nat)
    requires bits >= 1
  {
    -(Pow2(bits - 1) as int) <= x < Pow2(bits - 1)
  }

  lemma {:induction false} Pow2Add(a: nat, b: nat)
    ensures Pow2(a + b) == Pow2(a) * Pow2(b)
  {
    if b > 0 {
      Pow2Add(a, b - 1);
      assert Pow2(a + b) == 2 * Pow2(a + b - 1);
    }
  }

  lemma DivBounds(x: int, a: nat, b: nat)
    requires b >= 1 && -(a * b) <= x < a * b
    ensures -(a as int) <= x / b < a
  {
    var q, r := x / b, x % b;
    assert x == b * q + r && 0 <= r < b;
    if q >= a {
      MulMonotone(b, a, q);
    }
    if q < -(a as int) {
      MulMonotone(b, q, -(a as int) - 1);
    }
  }

  /** Shifting a value of `bits` signed bits right by k leaves a value of bits - k signed bits. */
  lemma ShiftNarrows(x: int, bits: nat, k: nat)
    requires 1 <= bits && k < bits && FitsBits(x, bits)
    ensures FitsBits(x / Pow2(k), bits - k)
  {
    Pow2Add(bits - 1 - k, k);
    DivBounds(x, Pow2(bits - 1 - k), Pow2(k));
  }

  /**
   * Scaling 32-bit samples leaves values of 32 minus the shift bits: 16 for a
   * 32-bit 16-bit-ADC module, 18 for an 18-bit ADC, 24 for an ACQ43x.
   */
  lemma ScaleRawNarrowsWords(modules: seq<ModuleInfo>, raw: seq<int>, volts: bool)
    requires modules != [] && forall i :: 0 <= i < |raw| ==> FitsBits(raw[i], 32)
    ensures ScaleRaw(modules, raw, volts).Ok?
    ensures forall i :: 0 <= i < |raw| ==>
      FitsBits(ScaleRaw(modules, raw, volts).value[i], 32 - ScaleShift(modules, volts).value)
  {
    var k := ScaleShift(modules, volts).value;
    forall i | 0 <= i < |raw|
      ensures FitsBits(RightShift(raw, k)[i], 32 - k)
    {
      ShiftNarrows(raw[i], 32, k);
    }
  }

  /** Only the first module counts: later modules never change the shift. */
  lemma ScaleShiftFirstModuleOnly(modules: seq<ModuleInfo>, others: seq<ModuleInfo>, volts: bool)
    requires modules != []
    ensures ScaleShift(modules + others, volts) == ScaleShift(modules[..1], volts)
  {
    assert (modules + others)[0] == modules[..1][0];
  }
}
