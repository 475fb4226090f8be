# acq400_hapi core, modelled in Dafny

This project models the core of `acq400_hapi/acq400.py`, the host-side
Python API for D-TACQ ACQ400-series digitisers (ACQ1001, ACQ2106, ...).
The model covers these parts:

- **Status monitor** (`status.dfy`). A `Statusmonitor` polls the unit's
  status port. Each line is matched against a regular expression with five
  groups: state, pre, post, elapsed and demux. From the change between two
  stored lines the monitor sets or clears the `armed` and `stopped` events.
  If the state goes from IDLE straight past ARM, the monitor gives up.
  `wait_event` blocks until an event is set and then clears it.
- **Data readers** (`data_client.dfy`). `RawClient.read` and
  `ChannelClient.read` read from a socket. The socket is modelled as a
  `Connection` whose `recv` returns the next chunk of what the unit sends.
  Both readers turn the bytes into little-endian signed words, as
  `numpy.frombuffer` does, together with its element-count errors.
- **Channel de-interleaving** (`channels.dfy`). `read_chan`,
  `read_channels`, `read_muxed_data`, `pull_data` and `pull_plot` run over
  a `Unit`. A `Unit` holds the site-0 knobs these operations read
  (`NCHAN`, `data32`, `transient`), the last status line, the AI channel
  count, and, for each channel port, what that port delivers. Muxed data
  is split into one column per channel, both by numpy's reshape-and-index
  and by stride slicing. The two are proved to agree with each other and
  with interleaving.
- **Device helpers** (`device.dfy`). These are the status accessors, the
  `set_mb_clk` divisor search, `get_demux_state`,
  `get_aggregator_sites`, `sigsel`, the transient string built by
  `configure_pre_post`, and the right shift chosen by `scale_raw`.
- **Event signatures** (`events.dfy`). `get_es_indices` walks the data
  one sample (one row of `nchan` words) at a time. It reports every row
  whose first word is the event signature `0xaa55f154`.

The supporting modules are `common.dfy` (Option, Result, the Python
exceptions that can be raised), `text.dfy` (decimal text, `str.split`,
`str.join`) and `wire.dfy` (bytes, signed little-endian words,
`numpy.frombuffer`).

Python exceptions are modelled as `Err(IndexError)`, `Err(ValueError)`
and so on. A read that would wait forever for data the unit never sends
is modelled as the outcome `Hang`.

`SF.DEMUX` is 5, but the status expression captures only five groups
(indices 0 to 4), so `demux_status()` as written always raises
`IndexError` on a stored status. The model gives both the accessor as
written and one that reads index 4. See Findings.

## Model

| member | source | states |
|---|---|---|
| Status.StateName | acq400_hapi/acq400.py:100-114 | a state code has a name other than "UNDEF" exactly when it is one of IDLE..CLEANUP |
| Status.StateNameRoundTrip | acq400_hapi/acq400.py:92-114 | the name of each of the six states maps back to its code; every other code maps to no state |
| Status.ParseStatus | acq400_hapi/acq400.py:235 | a matched status line yields five non-negative fields; state and demux are single digits |
| Status.ParseFormattedStatus | acq400_hapi/acq400.py:235 | searching a line "s pre post elapsed demux" gives back state, pre, post and elapsed, and only the last digit of demux, because `([0-9])+` keeps its last repetition |
| Status.MultiDigitStateKeepsLastDigit | acq400_hapi/acq400.py:235 | a line whose state is written with two digits matches from the second digit, so the state reads as its last digit and the other fields are unchanged |
| Status.Step | acq400_hapi/acq400.py:241-268 | a poll with no match changes nothing; the first match is stored; stop edge sets stopped and clears armed; ARM sets armed and clears stopped; IDLE to past ARM sets the quit flag and keeps the old status |
| Status.StepSetsFlagIffRaised | acq400_hapi/acq400.py:251-262 | from a clear event, one poll sets it exactly when that poll shows its edge |
| Status.ClearFlagStaysClear | acq400_hapi/acq400.py:240-268 | a clear event stays clear over any poll sequence that shows no edge for it |
| Status.SkipArmStopsMonitoring | acq400_hapi/acq400.py:263-267 | after a skipped ARM, the monitor requests quit and ignores every later poll |
| Status.WaitRun | acq400_hapi/acq400.py:275-283 | when the wait returns, the event has been cleared |
| Status.WaitReturnsIffObserved | acq400_hapi/acq400.py:275-283 | starting from a clear event, the wait returns exactly when the polls show the event's edge |
| Status.SecondWaitNeedsNewEdge | acq400_hapi/acq400.py:283 | since the event is cleared on return, a second wait returns only on a new edge |
| Status.QuitFailsWait | acq400_hapi/acq400.py:277-280 | once quit is requested, a wait on a clear event exits instead of returning |
| Status.Statusmonitor.constructor | acq400_hapi/acq400.py:300-311 | a new monitor holds the initial status with both events clear and no quit request |
| Status.Statusmonitor.StMonitor | acq400_hapi/acq400.py:239-270 | the monitor's fields after a sequence of polls are those the step function gives, poll by poll |
| Status.Statusmonitor.HandleLine | acq400_hapi/acq400.py:241-268 | one polled line moves the monitor's fields exactly as the step function says: unmatched lines change nothing, the stop and arm edges set and clear the flags, IDLE straight to a running state requests quit without storing the status |
| Status.Statusmonitor.WaitEvent | acq400_hapi/acq400.py:275-283 | the outcome and the new fields are those of the wait function |
| Wire.LeUnsignedOfLeBytes | acq400_hapi/acq400.py:156 | little-endian bytes decode back to the value they encode |
| Wire.EncodeWord | acq400_hapi/acq400.py:142 | a w-byte two's-complement encoding of a value that fits decodes as that value |
| Wire.DecodeEncodeAll | acq400_hapi/acq400.py:156 | decoding an encoded word list, with fewer than w trailing bytes, gives the list back |
| Wire.FromBuffer | acq400_hapi/acq400.py:156 | count -1 succeeds exactly when the length is a whole number of words; count n succeeds exactly when n words are there and reads only those; every failure is ValueError |
| Wire.FromBufferOfEncoding | acq400_hapi/acq400.py:220 | reading n words from a buffer starting with n encoded words gives them back |
| Wire.FromBufferOfWholeEncoding | acq400_hapi/acq400.py:214 | reading all words of an encoded list gives it back |
| Wire.FromBufferPartialElement | acq400_hapi/acq400.py:156 | a buffer ending in a partial word fails with ValueError |
| DataClient.Connection.constructor | acq400_hapi/acq400.py:186 | a new connection will deliver the given chunks |
| DataClient.Connection.Recv | acq400_hapi/acq400.py:150 | recv returns at most max bytes, as a prefix of what is still to come; it returns empty exactly at end of stream, which then stays ended |
| DataClient.RawRead | acq400_hapi/acq400.py:132-156 | reads min(nelems*size*ncols, available) bytes (2 GB worth of elements when nelems <= 0), leaves the rest on the connection, and decodes them as i4 when size is 4, otherwise as i2 |
| DataClient.RawReadRoundTrip | acq400_hapi/acq400.py:146-156 | reading n elements from a stream that starts with n encoded elements gives them back |
| DataClient.RawReadToEnd | acq400_hapi/acq400.py:143-156 | with nelems <= 0, the reader returns the whole stream |
| DataClient.ChannelReadSpec | acq400_hapi/acq400.py:206-207 | the read raises KeyError exactly when data_size is not 1, 2 or 4 |
| DataClient.ChannelRead | acq400_hapi/acq400.py:186-220 | the read's outcome is the specification's: read to end for ndata 0 or -1; only the first recv for other negative ndata; wait for ndata words otherwise, hanging on a short stream |
| DataClient.RecvToEnd | acq400_hapi/acq400.py:211-215 | the open-ended loop receives everything still pending and leaves the connection empty |
| DataClient.RecvAtLeast | acq400_hapi/acq400.py:217-218 | the fixed-count loop stops with a prefix of the stream at least want bytes long, or finds the stream shorter than want; a buffer already long enough is kept as it is |
| DataClient.ChannelReadFragmentationIndependent | acq400_hapi/acq400.py:208-220 | for ndata >= -1 the result depends only on the bytes delivered, not on how recv splits them |
| DataClient.ChannelReadRoundTrip | acq400_hapi/acq400.py:217-220 | asking for n words from a stream that starts with n encoded words gives them back |
| DataClient.ChannelReadToEndRoundTrip | acq400_hapi/acq400.py:210-214 | reading to end a stream of encoded words gives them all back |
| DataClient.ChannelReadShortStreamHangs | acq400_hapi/acq400.py:217-218 | asking for more words than the stream holds never returns |
| Device.StatusField | acq400_hapi/acq400.py:441-452 | a status accessor returns field k when the status has one, else raises IndexError |
| Device.StatusAccessorsOfFormattedLine | acq400_hapi/acq400.py:441-452 | on a parsed status line, state, samples (pre + post), elapsed and the corrected demux accessor return the line's fields |
| Device.DemuxStatusAsWrittenFailsOnParsedLine | acq400_hapi/acq400.py:90 | demux_status as written raises IndexError on every parsed status |
| Device.SetMbClk | acq400_hapi/acq400.py:631-640 | the loop's result equals the closed-form clock setting |
| Device.MbClkSettingIsLeastDivisor | acq400_hapi/acq400.py:631-638 | a successful setting has MB_SET = hz * clkdiv >= the minimum, 1 <= clkdiv <= 1999, and no smaller divisor reaches the minimum |
| Device.MbClkSettingFailsIff | acq400_hapi/acq400.py:635-640 | the search fails, with ValueError, exactly when even hz * 1999 stays below the minimum |
| Device.MbClkOneMegahertz | acq400_hapi/acq400.py:406 | 1 MHz with the default 4 MHz minimum gives MB_SET 4 MHz and divisor 4 |
| Device.DemuxState | acq400_hapi/acq400.py:927-935 | a result is one decimal digit; a transient without "DEMUX=" raises IndexError |
| Device.DemuxStateOfTransient | acq400_hapi/acq400.py:934-935 | for any transient whose first "DEMUX=" starts at i, whatever comes before it: a digit right after the key is the demux state, another character raises ValueError, and nothing after the key raises IndexError |
| Device.DemuxStateMissing | acq400_hapi/acq400.py:934 | a transient in which "DEMUX=" occurs nowhere raises IndexError |
| Device.AggregatorSites | acq400_hapi/acq400.py:454-455 | a result is a non-empty list; every failure is IndexError |
| Device.AggregatorSitesRoundTrip | acq400_hapi/acq400.py:454-455 | from "name key=s1,s2,... rest" the site list s1, s2, ... is recovered |
| Device.SigselParsesBack | acq400_hapi/acq400.py:1231-1235 | the signal selector splits into three comma-separated fields: the integer enable, then the integer site + 1 or, with no site, the dx text as given (such as "d1"), then the integer edge |
| Device.ConfigurePrePostSetting | acq400_hapi/acq400.py:798-802 | nothing is set exactly when pre > post; a trigger list shorter than 2 raises IndexError; otherwise the transient's three words read back as PRE, POST and SOFT_TRIGGER (1 iff trigger[1] == 1) |
| Device.ScaleShift | acq400_hapi/acq400.py:463-476 | the shift is at most 16; it fails with NameError exactly when there are no modules |
| Device.ScaleShiftFirstModuleOnly | acq400_hapi/acq400.py:464-475 | only the first module decides the shift |
| Device.ScaleRawNarrowsWords | acq400_hapi/acq400.py:476 | shifting 32-bit samples by the chosen amount leaves values that fit in 32 - shift bits |
| Channels.RowsFullIff | acq400_hapi/acq400.py:571 | data splits into full rows of n exactly when its length is a multiple of n, as reshape(-1, n) demands |
| Channels.ConcatRows | acq400_hapi/acq400.py:571 | the rows of the data, put back together, are the data |
| Channels.RowAt | acq400_hapi/acq400.py:571 | row k is the slice of data starting at k*n |
| Channels.SelectColumns | acq400_hapi/acq400.py:571-573 | selecting succeeds only with nchan > 0 and whole rows and yields one column per channel; a length not divisible by nchan is ValueError |
| Channels.DemuxRoundTrip | acq400_hapi/acq400.py:571-573 | de-interleaving interleaved channels with the full channel list gives the channels back |
| Channels.SelectColumnsOfInterleave | acq400_hapi/acq400.py:572 | selecting channels 1-based from interleaved data gives exactly those channels |
| Channels.StrideColumnsAgreeWithReshape | acq400_hapi/acq400.py:965-967 | for in-range channels, stride slicing `[ch-1::nchan]` gives the same columns as reshape and index |
| Channels.ReadChan | acq400_hapi/acq400.py:496-515 | reading one channel behaves as the channel reader on that port, with nsam defaulting to pre + post for channels other than 0 |
| Channels.ReadChanRoundTrip | acq400_hapi/acq400.py:496-506 | a channel port that delivers encoded words gives them back |
| Channels.ReadChannels | acq400_hapi/acq400.py:539-575 | the method's outcome is the specification's, channel by channel |
| Channels.ReadEachRoundTrip | acq400_hapi/acq400.py:557-565 | with demux on, the list holds each requested channel's data in order |
| Channels.ReadChannelsMuxedRoundTrip | acq400_hapi/acq400.py:569-575 | with demux off, reading all channels of muxed data gives each channel back |
| Channels.ReadChannelsDemuxedRoundTrip | acq400_hapi/acq400.py:546-565 | with demux on, the normalised channel list is read port by port |
| Channels.ReadMuxedDataAsWrittenSelectsLastChannel | acq400_hapi/acq400.py:981-982 | as written, read_muxed_data returns the last channel, not the muxed stream |
| Channels.ReadMuxedDataIsMuxedStream | acq400_hapi/acq400.py:974-982 | read_muxed_data, as its docstring describes it, returns the whole multiplexed stream of port 0 |
| Channels.ReadMuxedDataAsWrittenDiffers | acq400_hapi/acq400.py:981-982 | with two or more channels and one sample, the as-written result differs from the muxed stream |
| Channels.PullDataRoundTrip | acq400_hapi/acq400.py:985-1004 | pull_data returns each AI channel's data in both demux modes (with the corrected read_muxed_data) |
| Channels.PullPlotDemuxedRoundTrip | acq400_hapi/acq400.py:949-951 | with demux 1, pull_plot returns every channel as its own port serves it |
| Channels.PullPlotMuxedRoundTrip | acq400_hapi/acq400.py:952-959 | with demux 0, pull_plot slices every channel out of the multiplexed stream (with the corrected read_muxed_data) |
| Channels.PullPlotModesAgree | acq400_hapi/acq400.py:938-971 | on a unit that serves the same channels both ways, the demux-on and demux-off pulls of all channels are equal (with the corrected read_muxed_data) |
| EventSamples.EsStride | acq400_hapi/acq400.py:1080-1082 | the stride is at most nchan; a data32 that is not an integer raises ValueError |
| EventSamples.EsIndices | acq400_hapi/acq400.py:1084-1088 | the loop's result equals the row scan of the data |
| EventSamples.EsIndicesSound | acq400_hapi/acq400.py:1084-1088 | every reported index k has the signature at word k*stride, and its sample is the stride words from there |
| EventSamples.EsIndicesComplete | acq400_hapi/acq400.py:1084-1088 | every row starting with the signature is reported, and indices are strictly increasing |
| EventSamples.ScanRowsIncreasing | acq400_hapi/acq400.py:1085 | the scan reports indices in strictly increasing order |

## Left out

- Sockets, the netclient classes and their connection set-up are not modelled. A socket is a list of the chunks the unit sends. `recv(n)` takes at most n bytes of the next chunk. An empty chunk is end of stream.
- Threads and signals are not modelled. The monitor thread is a function over the list of polled lines. `os.kill` and `sys.exit` become the quit flag and the `Exited` outcome. The 0.1 s wait timeout becomes one polled line per wait tick.
- Status.Step: the trace printing and the unit name in messages are left out.
- DataClient.RawRead: the Python 2 string buffer (`total_buf = ""`) is modelled as bytes, so the model describes the Python 2 behaviour only. Under Python 3, `total_buf += new_buf` adds bytes to a str and raises TypeError on the first non-empty recv; that failure is not modelled. The `maxbuf` argument is ignored, as it is in the code.
- DataClient.ChannelRead: `maxbuf` must be positive; with 0, `recv` would always return nothing. Waiting forever on a short stream is the outcome `Hang`, not a timeout.
- `get_blocks` (the generator over RawClient) and `read_decims` are not part of this model.
- Float calibration (`chan2volts`, `fetch_all_calibration`, `cal_eslo`, `cal_eoff`) is not modelled: it is floating point.
- Knob writes are not modelled: the clock-source writes in `set_mb_clk` (:620-629), the trigger and event knobs of `configure_pre_post` after the transient, and the other setters. The model gives the values written to `SIG_CLK_MB_SET`, `CLKDIV` and `transient` as results.
- Device.ScaleRaw: numpy's dtype of `raw` is not modelled; samples are unbounded integers and the shift is floor division by a power of two, as `np.right_shift` does on signed values.
- Channels.Unit: `NCHAN` is a natural number; `int()` of knob text with spaces or signs is not modelled. `get_ai_channels` is a field of the unit.
- EventSamples.EsStride: `data32` is read with a parser of an optional '-' and decimal digits. Python's `int()` also accepts surrounding whitespace, a '+' sign and underscores; on such text the model raises ValueError where the code computes a stride.
- Channels.PullPlot: the plot, the `print` calls and `save_data` file writing are left out. Its `channels` argument is an explicit choice of all, one or several channels.
- Channels.PullData and Channels.PullPlot use the corrected read_muxed_data (see Findings).
- EventSamples.EsIndices: reading the file, the int16-to-uint32 reinterpretation, and the `human_readable` and `return_hex_string` formatting are left out. The data is given as a list of 32-bit words.
- Uploads, services, streaming, plotting, file saving and the command-line scripts are outside this model.

## Findings

| source | as written | input that shows it | evidently intended | confidence | as-written member | corrected member |
|---|---|---|---|---|---|---|
| acq400_hapi/acq400.py:90 | `SF.DEMUX = 5`, so `demux_status()` reads `status[5]` | any status line, e.g. "1 0 0 0 1": the stored list has five fields, so `status[5]` raises IndexError | the fifth captured group, index 4 | not executed | Device.DemuxStatusAsWrittenFailsOnParsedLine | Device.StatusAccessorsOfFormattedLine |
| acq400_hapi/acq400.py:981-982 | `read_channels((0), -1)` passes the int 0; `read_channels` wraps it as `(0,)` and, with demux off, takes column `0 - 1`, the last channel | demux off, two channels, one sample each: the result is channel 2, not the muxed stream | read channel 0 (the muxed port) to end of stream | not executed | Channels.ReadMuxedDataAsWrittenSelectsLastChannel | Channels.ReadMuxedDataIsMuxedStream |
