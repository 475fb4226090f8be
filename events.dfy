/**
 * get_es_indices: the scan of a multiplexed stream for event samples. An
 * event sample is a row whose first word is the event signature; the scan
 * reports the row numbers and the rows themselves.
 */
module EventSamples {
  import opened Common
  import opened Text
  import opened Channels

  /** The event-signature word. */
  const ES_MAGIC := 0xaa55f154

  /** get_es_indices' result: [indices, event_samples]. */
  datatype EsResult = EsResult(indices: seq<nat>, samples: seq<seq<int>>)

  /** The row stride: the channel count, halved (int(nchan / 2)) when int(data32) is 0. */
  function EsStride(nchan: nat, data32: string): (r: Result<nat>)
    ensures r.Err? <==> ParseInt(data32).None?
    ensures r.Ok? ==> r.value <= nchan
  {
    match ParseInt(data32)
    case None => Err(ValueError)
    case Some(v) => Ok(if v == 0 then nchan / 2 else nchan)
  }

  predicate NonEmptyRows(rows: seq<seq<int>>)
  {
    forall i :: 0 <= i < |rows| ==> |rows[i]| > 0
  }

  function Joined(a: EsResult, b: EsResult): EsResult
  {
    EsResult(a.indices + b.indices, a.samples + b.samples)
  }

  /** The rows, numbered from first, whose first word is the signature. */
  function ScanRows(rows: seq<seq<int>>, first: nat): EsResult
    requires NonEmptyRows(rows)
  {
    if rows == [] then EsResult([], [])
    else
      var rest := ScanRows(rows[1..], first + 1);
      if rows[0][0] == ES_MAGIC then Joined(EsResult([first], [rows[0]]), rest) else rest
  }

  /** get_es_indices on a stream of words. */
  function EsIndicesSpec(data: seq<int>, nchan: nat, data32: string): Result<EsResult>
  {
    match EsStride(nchan, data32)
    case Err(e) => Err(e)
    case Ok(n) => if n == 0 then Err(ValueError) else Ok(ScanRows(Rows(data, n), 0))
  }

  /** The stream from p on, or nothing once p is past its end. */
  function Suffix(data: seq<int>, p: nat): seq<int>
  {
    if p <= |data| then data[p..] else []
  }

  lemma RowsOfSuffix(data: seq<int>, n: nat, p: nat)
    requires n > 0 && p < |data|
    ensures Rows(Suffix(data, p), n) == [data[p..Min(p + n, |data|)]] + Rows(Suffix(data, p + n), n)
  {
    var s := data[p..];
    assert s[..Min(n, |s|)] == data[p..Min(p + n, |data|)];
    if p + n <= |data| {
      assert s[Min(n, |s|)..] == data[p + n..];
    } else {
      assert s[Min(n, |s|)..] == [];
    }
  }

  lemma JoinedAssoc(a: EsResult, b: EsResult, c: EsResult)
    ensures Joined(a, Joined(b, c)) == Joined(Joined(a, b), c)
  {
    assert a.indices + (b.indices + c.indices) == a.indices + b.indices + c.indices;
    assert a.samples + (b.samples + c.samples) == a.samples + b.samples + c.samples;
  }

  /** What the scan records for the row starting at word p, numbered index. */
  function Found(data: seq<int>, n: nat, p: nat, index: nat): EsResult
    requires p < |data|
  {
    if data[p] == ES_MAGIC then EsResult([index], [data[p..Min(p + n, |data|)]]) else EsResult([], [])
  }

  lemma ScanStep(data: seq<int>, n: nat, p: nat, index: nat)
    requires n > 0 && p < |data|
    ensures ScanRows(Rows(Suffix(data, p), n), index)
         == Joined(Found(data, n, p, index), ScanRows(Rows(Suffix(data, p + n), n), index + 1))
  {
    RowsOfSuffix(data, n, p);
    var rest := ScanRows(Rows(Suffix(data, p + n), n), index + 1);
    if data[p] != ES_MAGIC {
      assert Joined(EsResult([], []), rest) == rest;
    }
  }

  /** One step of the scan, after the results gathered so far. */
  lemma ScanStepFrom(data: seq<int>, n: nat, p: nat, nextP: nat, index: nat, nextIndex: nat, acc: EsResult)
    requires n > 0 && p < |data| && nextP == p + n && nextIndex == index + 1
    ensures Joined(acc, ScanRows(Rows(Suffix(data, p), n), index))
         == Joined(Joined(acc, Found(data, n, p, index)), ScanRows(Rows(Suffix(data, nextP), n), nextIndex))
  {
    ScanStep(data, n, p, index);
    JoinedAssoc(acc, Found(data, n, p, index), ScanRows(Rows(Suffix(data, p + n), n), index + 1));
  }

  /** Recording the row at word p appends it when it starts with the signature. */
  lemma FoundAppends(data: seq<int>, n: nat, p: nat, index: nat, indices: seq<nat>, samples: seq<seq<int>>)
    requires p < |data|
    ensures Joined(EsResult(indices, samples), Found(data, n, p, index))
         == if data[p] == ES_MAGIC then EsResult(indices + [index], samples + [data[p..Min(p + n, |data|)]])
            else EsResult(indices, samples)
  {
    if data[p] != ES_MAGIC {
      assert indices + [] == indices && samples + [] == samples;
    }
  }

  /** The scan of get_es_indices: every nchan-th word, from word 0. */
  method EsIndices(data: seq<int>, nchan: nat, data32: string) returns (r: Result<EsResult>)
    ensures r == EsIndicesSpec(data, nchan, data32)
  {
    var stride := EsStride(nchan, data32);
    if stride.Err? {
      return Err(stride.error);
    }
    var n := stride.value;
    if n == 0 {
      return Err(ValueError);
    }
    var indices: seq<nat> := [];
    var samples: seq<seq<int>> := [];
    var index: nat := 0;
    var p: nat := 0;  // index * n, the word the current row starts at
    ghost var whole := ScanRows(Rows(data, n), 0);
    assert Suffix(data, 0) == data;
    assert Joined(EsResult([], []), whole) == whole;
    while p < |data|
      invariant whole == Joined(EsResult(indices, samples), ScanRows(Rows(Suffix(data, p), n), index))
      decreases |data| - p
    {
      var nextP := p + n;
      var nextIndex := index + 1;
      ghost var acc := Joined(EsResult(indices, samples), Found(data, n, p, index));
      ScanStepFrom(data, n, p, nextP, index, nextIndex, EsResult(indices, samples));
      FoundAppends(data, n, p, index, indices, samples);
      if data[p] == ES_MAGIC {
        indices := indices + [index];
        samples := samples + [data[p..Min(p + n, |data|)]];
      }
      assert EsResult(indices, samples) == acc;
      index := nextIndex;
      p := nextP;
    }
    assert Rows(Suffix(data, p), n) == [];
    assert Joined(EsResult(indices, samples), EsResult([], [])) == EsResult(indices, samples);
    r := Ok(EsResult(indices, samples));
  }

  /** Row i (numbered from first) starts with the signature and is the reported row. */
  predicate IsEventRow(rows: seq<seq<int>>, first: nat, i: nat, row: seq<int>)
    requires NonEmptyRows(rows)
  {
    first <= i < first + |rows| && rows[i - first][0] == ES_MAGIC && row == rows[i - first]
  }

  /** Every reported index is a signature row, reported with that row. */
  lemma {:induction false} ScanRowsSound(rows: seq<seq<int>>, first: nat)
    requires NonEmptyRows(rows)
    ensures var r := ScanRows(rows, first);
      |r.indices| == |r.samples|
      && forall j :: 0 <= j < |r.indices| ==> IsEventRow(rows, first, r.indices[j], r.samples[j])
  {
    if rows != [] {
      var rest := ScanRows(rows[1..], first + 1);
      ScanRowsSound(rows[1..], first + 1);
      forall j | 0 <= j < |rest.indices|
        ensures IsEventRow(rows, first, rest.indices[j], rest.samples[j])
      {
        assert IsEventRow(rows[1..], first + 1, rest.indices[j], rest.samples[j]);
        assert rows[1..][rest.indices[j] - (first + 1)] == rows[rest.indices[j] - first];
      }
      if rows[0][0] == ES_MAGIC {
        var r := ScanRows(rows, first);
        forall j | 0 <= j < |r.indices|
          ensures IsEventRow(rows, first, r.indices[j], r.samples[j])
        {
          if j > 0 {
            assert r.indices[j] == rest.indices[j - 1] && r.samples[j] == rest.samples[j - 1];
          }
        }
      }
    }
  }

  /** Every signature row is reported. */
  lemma {:induction false} ScanRowsComplete(rows: seq<seq<int>>, first: nat)
    requires NonEmptyRows(rows)
    ensures forall k :: 0 <= k < |rows| && rows[k][0] == ES_MAGIC ==> first + k in ScanRows(rows, first).indices
  {
    if rows != [] {
      var rest := ScanRows(rows[1..], first + 1);
      var r := ScanRows(rows, first);
      ScanRowsComplete(rows[1..], first + 1);
      assert forall x :: x in rest.indices ==> x in r.indices;
      forall k | 1 <= k < |rows| && rows[k][0] == ES_MAGIC
        ensures first + k in r.indices
      {
        assert rows[1..][k - 1] == rows[k];
        assert (first + 1) + (k - 1) in rest.indices;
      }
    }
  }

  /** Strictly increasing, all at least first. */
  predicate IncreasingFrom(s: seq<nat>, first: nat)
  {
    (forall j :: 0 <= j < |s| ==> first <= s[j])
    && forall j1, j2 :: 0 <= j1 < j2 < |s| ==> s[j1] < s[j2]
  }

  /** The indices come out in increasing order, all at least first. */
  lemma {:induction false} ScanRowsIncreasing(rows: seq<seq<int>>, first: nat)
    requires NonEmptyRows(rows)
    ensures IncreasingFrom(ScanRows(rows, first).indices, first)
  {
    if rows != [] {
      ScanRowsIncreasing(rows[1..], first + 1);
      var rest := ScanRows(rows[1..], first + 1);
      var r := ScanRows(rows, first);
      if rows[0][0] != ES_MAGIC {
        assert r == rest;
      } else {
        assert r.indices == [first] + rest.indices;
        forall j | 0 <= j < |r.indices|
          ensures first <= r.indices[j]
        {
          if j > 0 { assert r.indices[j] == rest.indices[j - 1]; }
        }
        forall j1, j2 | 0 <= j1 < j2 < |r.indices|
          ensures r.indices[j1] < r.indices[j2]
        {
          assert r.indices[j2] == rest.indices[j2 - 1];
          if j1 > 0 { assert r.indices[j1] == rest.indices[j1 - 1]; }
        }
      }
    }
  }

  lemma EventRowInStream(data: seq<int>, n: nat, i: nat, row: seq<int>)
    requires n > 0 && IsEventRow(Rows(data, n), 0, i, row)
    ensures i * n < |data| && data[i * n] == ES_MAGIC && row == data[i * n..Min(i * n + n, |data|)]
  {
    RowAt(data, n, i);
  }

  lemma SignatureWordStartsEventRow(data: seq<int>, n: nat, k: nat)
    requires n > 0 && k * n < |data| && data[k * n] == ES_MAGIC
    ensures k < |Rows(data, n)| && Rows(data, n)[k][0] == ES_MAGIC
  {
    RowExists(data, n, k);
    RowAt(data, n, k);
  }

  /** Each reported index k has the signature at word k * n and comes with data[k*n : k*n + n]. */
  lemma EsIndicesSound(data: seq<int>, nchan: nat, data32: string)
    requires EsIndicesSpec(data, nchan, data32).Ok?
    ensures var n := EsStride(nchan, data32).value;
      var r := EsIndicesSpec(data, nchan, data32).value;
      n > 0 && |r.indices| == |r.samples|
      && forall j :: 0 <= j < |r.indices| ==>
           r.indices[j] * n < |data| && data[r.indices[j] * n] == ES_MAGIC
           && r.samples[j] == data[r.indices[j] * n..Min(r.indices[j] * n + n, |data|)]
  {
    var n := EsStride(nchan, data32).value;
    var r := ScanRows(Rows(data, n), 0);
    ScanRowsSound(Rows(data, n), 0);
    forall j | 0 <= j < |r.indices|
      ensures r.indices[j] * n < |data| && data[r.indices[j] * n] == ES_MAGIC
      ensures r.samples[j] == data[r.indices[j] * n..Min(r.indices[j] * n + n, |data|)]
    {
      EventRowInStream(data, n, r.indices[j], r.samples[j]);
    }
  }

  /** Every k whose word k * n is the signature is reported, and the indices increase. */
  lemma EsIndicesComplete(data: seq<int>, nchan: nat, data32: string)
    requires EsIndicesSpec(data, nchan, data32).Ok?
    ensures var n := EsStride(nchan, data32).value;
      var r := EsIndicesSpec(data, nchan, data32).value;
      (forall k: nat :: k * n < |data| && data[k * n] == ES_MAGIC ==> k in r.indices)
      && IncreasingFrom(r.indices, 0)
  {
    var n := EsStride(nchan, data32).value;
    ScanRowsComplete(Rows(data, n), 0);
    ScanRowsIncreasing(Rows(data, n), 0);
    forall k: nat | k * n < |data| && data[k * n] == ES_MAGIC
      ensures k in ScanRows(Rows(data, n), 0).indices
    {
      SignatureWordStartsEventRow(data, n, k);
      assert 0 + k == k;
    }
  }
}
