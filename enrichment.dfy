/**
 * The status-enrichment schedule of `batchCheckStatuses` (src/popup.js):
 * which entries are probed, how they are cut into batches, what status a
 * HEAD probe yields, and how a status is shown.
 */
module Enrichment {
  import opened Wrappers
  import opened Net
  import opened PathRules

  /** `!item.status`: the status is `null` or 0. */
  predicate IsFalsy(s: Status) {
    s.None? || s.value == 0
  }

  /** The positions `filter(item => !item.status)` keeps, in order. */
  function FalsyIndices(s: seq<PathEntry>): (r: seq<nat>)
    ensures forall k | 0 <= k < |r| :: r[k] < |s| && IsFalsy(s[r[k]].status)
    ensures forall k, l | 0 <= k < l < |r| :: r[k] < r[l]
    ensures forall i | 0 <= i < |s| && IsFalsy(s[i].status) :: i in r
  {
    if s == [] then []
    else FalsyIndices(s[..|s| - 1]) + (if IsFalsy(s[|s| - 1].status) then [|s| - 1] else [])
  }

  /** Where `slice(0, end)` stops on a list of `len` elements; a negative `end` counts from the back. */
  function SliceEnd(len: nat, end: int): (r: nat)
    ensures r <= len
  {
    if end >= 0 then (if end < len then end else len)
    else if len + end < 0 then 0
    else len + end
  }

  /** `pathsArray.filter(item => !item.status).slice(0, maxChecks)`, as positions. */
  function Selection(s: seq<PathEntry>, maxChecks: int): (r: seq<nat>)
    ensures forall k | 0 <= k < |r| :: r[k] < |s| && IsFalsy(s[r[k]].status)
    ensures forall k, l | 0 <= k < l < |r| :: r[k] < r[l]
    ensures forall i | 0 <= i < |s| && IsFalsy(s[i].status) && |r| > 0 && i < r[|r| - 1] :: i in r
  {
    var f := FalsyIndices(s);
    var r := f[..SliceEnd(|f|, maxChecks)];
    forall i | 0 <= i < |s| && IsFalsy(s[i].status) && |r| > 0 && i < r[|r| - 1]
      ensures i in r
    {
      var k :| 0 <= k < |f| && f[k] == i;
    }
    r
  }

  /** The number of entries without a truthy status. */
  function FalsyCount(s: seq<PathEntry>): nat {
    |FalsyIndices(s)|
  }

  /** The selection probes `maxChecks` entries, or every falsy one when there are fewer. */
  lemma SelectionSize(s: seq<PathEntry>, maxChecks: int)
    ensures 0 <= maxChecks ==> |Selection(s, maxChecks)| == if maxChecks < FalsyCount(s) then maxChecks else FalsyCount(s)
    ensures maxChecks < 0 ==> |Selection(s, maxChecks)| == if FalsyCount(s) + maxChecks < 0 then 0 else FalsyCount(s) + maxChecks
  {
  }

  /** `for (i = 0; i < n; i += size) batch = slice(i, i + size)`. */
  function Batches(sel: seq<nat>, size: nat): (r: seq<seq<nat>>)
    requires size >= 1
    decreases |sel|
  {
    if sel == [] then []
    else if |sel| <= size then [sel]
    else [sel[..size]] + Batches(sel[size..], size)
  }

  function Flatten(bs: seq<seq<nat>>): seq<nat> {
    if bs == [] then [] else bs[0] + Flatten(bs[1..])
  }

  /** The batch that starts at position `i` and the batches after it. */
  lemma BatchesStep(sel: seq<nat>, i: nat, size: nat, end: nat)
    requires size >= 1 && i < |sel| && end == (if i + size < |sel| then i + size else |sel|)
    ensures Batches(sel[i..], size) == [sel[i..end]] + Batches(sel[end..], size)
  {
    if |sel[i..]| > size {
      assert sel[i..][..size] == sel[i..end];
      assert sel[i..][size..] == sel[end..];
    } else {
      assert sel[i..] == sel[i..end];
      assert sel[end..] == [];
    }
  }

  /**
   * The bookkeeping of one pass of the batch loop: the probed prefix grows by
   * the batch, the callbacks by the batch's callbacks, and the batches still
   * to come lose their first.
   */
  lemma ScheduleStep(s: seq<PathEntry>, sel: seq<nat>, i: nat, size: nat, end: nat, baseUrl: string, web: Web)
    requires forall k | 0 <= k < |sel| :: sel[k] < |s|
    requires size >= 1 && i < |sel| && end == (if i + size < |sel| then i + size else |sel|)
    ensures sel[..end] == sel[..i] + sel[i..end]
    ensures forall k | 0 <= k < |sel[i..end]| :: sel[i..end][k] < |s|
    ensures Callbacks(s, sel[..end], baseUrl, web) == Callbacks(s, sel[..i], baseUrl, web) + Callbacks(s, sel[i..end], baseUrl, web)
    ensures Batches(sel[i..], size) == [sel[i..end]] + Batches(sel[end..], size)
  {
    assert sel[..end] == sel[..i] + sel[i..end];
    CallbacksConcat(s, sel[..i], sel[i..end], baseUrl, web);
    BatchesStep(sel, i, size, end);
  }

  /** Every selected entry is probed once, in selection order. */
  lemma {:induction false} BatchesCover(sel: seq<nat>, size: nat)
    requires size >= 1
    ensures Flatten(Batches(sel, size)) == sel
    decreases |sel|
  {
    if sel != [] && |sel| > size {
      BatchesCover(sel[size..], size);
      assert sel == sel[..size] + sel[size..];
    }
  }

  /** Every batch holds between 1 and `size` entries, and all but the last hold exactly `size`. */
  lemma {:induction false} BatchesShape(sel: seq<nat>, size: nat)
    requires size >= 1
    ensures forall k | 0 <= k < |Batches(sel, size)| :: 1 <= |Batches(sel, size)[k]| <= size
    ensures forall k | 0 <= k < |Batches(sel, size)| - 1 :: |Batches(sel, size)[k]| == size
    decreases |sel|
  {
    if sel != [] && |sel| > size {
      BatchesShape(sel[size..], size);
      var rest := Batches(sel[size..], size);
      assert Batches(sel, size) == [sel[..size]] + rest;
      forall k | 1 <= k < |Batches(sel, size)| ensures Batches(sel, size)[k] == rest[k - 1] {
      }
    }
  }

  /** There are `ceil(n / size)` batches: the fewest whose capacity holds every selected entry. */
  lemma {:induction false} BatchesCount(sel: seq<nat>, size: nat)
    requires size >= 1
    ensures |sel| <= |Batches(sel, size)| * size
    ensures (|Batches(sel, size)| - 1) * size < |sel|
    decreases |sel|
  {
    if sel != [] && |sel| > size {
      BatchesCount(sel[size..], size);
      var c := |Batches(sel[size..], size)|;
      assert (c + 1) * size == c * size + size;
    }
  }

  /** When the selection is a whole number `m` of batches long, every batch is full. */
  lemma {:induction false} BatchesExact(sel: seq<nat>, size: nat, m: nat)
    requires size >= 1 && |sel| == m * size
    ensures |Batches(sel, size)| == m
    ensures forall k | 0 <= k < m :: |Batches(sel, size)[k]| == size
    decreases m
  {
    if m > 0 {
      assert m * size == (m - 1) * size + size;
      if m == 1 {
        assert Batches(sel, size) == [sel];
      } else {
        assert (m - 1) * size >= size;
        var rest := Batches(sel[size..], size);
        BatchesExact(sel[size..], size, m - 1);
        assert Batches(sel, size) == [sel[..size]] + rest;
        forall k | 1 <= k < m ensures Batches(sel, size)[k] == rest[k - 1] {
        }
      }
    }
  }

  /**
   * With the defaults (`maxChecks` 50, `batchSize` 5) and at least fifty
   * paths of unknown status, exactly fifty are probed, in ten batches of
   * five.
   */
  lemma DefaultSchedule(s: seq<PathEntry>)
    requires FalsyCount(s) >= 50
    ensures |Selection(s, 50)| == 50
    ensures |Batches(Selection(s, 50), 5)| == 10
    ensures forall k | 0 <= k < 10 :: |Batches(Selection(s, 50), 5)[k]| == 5
  {
    SelectionSize(s, 50);
    var sel := Selection(s, 50);
    BatchesExact(sel, 5, 10);
  }

  /** `response.status || (response.type === 'opaque' ? 200 : null)`; a failed or aborted probe gives `null`. */
  function ProbeStatus(h: HeadOutcome): (r: Status)
    ensures r.Some? ==> r.value != 0
    ensures r.Some? ==> h.HeadResponse? && (r.value == h.status || (h.status == 0 && h.unreadable && r.value == 200))
    ensures h.HeadResponse? && h.status != 0 ==> r == Some(h.status)
    ensures h.HeadResponse? && h.status == 0 && h.unreadable ==> r == Some(200)
    ensures r.None? <==> h.HeadFailed? || (h.status == 0 && !h.unreadable)
  {
    match h
    case HeadFailed => None
    case HeadResponse(status, unreadable) =>
      if status != 0 then Some(status)
      else if unreadable then Some(200)
      else None
  }

  /** The entry after its HEAD probe at `baseUrl + path`. */
  function Probe(baseUrl: string, web: Web, e: PathEntry): PathEntry {
    e.(status := ProbeStatus(web.head(baseUrl + e.path, HEAD_TIMEOUT_MS)))
  }

  /** The entries at positions `pos` probed, the rest untouched. */
  function ProbedAt(s: seq<PathEntry>, pos: seq<nat>, baseUrl: string, web: Web): (r: seq<PathEntry>)
    ensures |r| == |s|
    ensures forall q | 0 <= q < |s| :: r[q].path == s[q].path
  {
    seq(|s|, q requires 0 <= q < |s| => if q in pos then Probe(baseUrl, web, s[q]) else s[q])
  }

  /** Probing one more position changes that entry alone; probing twice is probing once. */
  lemma ProbedAtSnoc(s: seq<PathEntry>, pos: seq<nat>, p: nat, baseUrl: string, web: Web)
    requires p < |s|
    ensures ProbedAt(s, pos + [p], baseUrl, web) == ProbedAt(s, pos, baseUrl, web)[p := Probe(baseUrl, web, ProbedAt(s, pos, baseUrl, web)[p])]
  {
  }

  /** The path list after `batchCheckStatuses`: the selected entries probed, the rest untouched. */
  function Enriched(s: seq<PathEntry>, maxChecks: int, baseUrl: string, web: Web): (r: seq<PathEntry>)
    ensures |r| == |s|
  {
    ProbedAt(s, Selection(s, maxChecks), baseUrl, web)
  }

  /**
   * Enrichment keeps every path in place, touches only entries whose status
   * was falsy, never more than `maxChecks` of them, and leaves none with the
   * status 0.
   */
  lemma EnrichedProperties(s: seq<PathEntry>, maxChecks: int, baseUrl: string, web: Web)
    ensures forall p | 0 <= p < |s| :: Enriched(s, maxChecks, baseUrl, web)[p].path == s[p].path
    ensures forall p | 0 <= p < |s| && !IsFalsy(s[p].status) :: Enriched(s, maxChecks, baseUrl, web)[p] == s[p]
    ensures forall p | 0 <= p < |s| && Enriched(s, maxChecks, baseUrl, web)[p] != s[p] :: p in Selection(s, maxChecks)
    ensures 0 <= maxChecks ==> |Selection(s, maxChecks)| <= maxChecks
    ensures forall p | 0 <= p < |s| && p in Selection(s, maxChecks) :: Enriched(s, maxChecks, baseUrl, web)[p].status != Some(0)
  {
    SelectionSize(s, maxChecks);
  }

  /** The `onStatusUpdate(path, status)` calls made for the probed positions `pos`, in order. */
  function Callbacks(s: seq<PathEntry>, pos: seq<nat>, baseUrl: string, web: Web): (r: seq<(string, Status)>)
    requires forall k | 0 <= k < |pos| :: pos[k] < |s|
    ensures |r| == |pos|
  {
    seq(|pos|, k requires 0 <= k < |pos| => (s[pos[k]].path, Probe(baseUrl, web, s[pos[k]]).status))
  }

  lemma CallbacksSnoc(s: seq<PathEntry>, pos: seq<nat>, p: nat, baseUrl: string, web: Web)
    requires forall k | 0 <= k < |pos| :: pos[k] < |s|
    requires p < |s|
    ensures Callbacks(s, pos + [p], baseUrl, web) == Callbacks(s, pos, baseUrl, web) + [(s[p].path, Probe(baseUrl, web, s[p]).status)]
  {
  }

  lemma CallbacksConcat(s: seq<PathEntry>, a: seq<nat>, b: seq<nat>, baseUrl: string, web: Web)
    requires forall k | 0 <= k < |a| :: a[k] < |s|
    requires forall k | 0 <= k < |b| :: b[k] < |s|
    ensures Callbacks(s, a + b, baseUrl, web) == Callbacks(s, a, baseUrl, web) + Callbacks(s, b, baseUrl, web)
  {
  }

  /** Each status callback reports a probed entry's path together with the status the entry ends up with. */
  lemma CallbacksReportEnriched(s: seq<PathEntry>, maxChecks: int, baseUrl: string, web: Web)
    ensures var sel, e := Selection(s, maxChecks), Enriched(s, maxChecks, baseUrl, web);
      forall k | 0 <= k < |sel| :: Callbacks(s, sel, baseUrl, web)[k] == (e[sel[k]].path, e[sel[k]].status)
  {
  }

  /** `getStatusClass`: the CSS class a status is shown with. */
  function StatusClass(status: Status): string {
    if IsFalsy(status) then "status-unknown"
    else if 200 <= status.value < 300 then "status-2xx"
    else if 300 <= status.value < 400 then "status-3xx"
    else if 400 <= status.value < 500 then "status-4xx"
    else if 500 <= status.value < 600 then "status-5xx"
    else "status-unknown"
  }

  /**
   * A status from 200 to 599 is shown by its hundreds digit, every other
   * status (and an unknown one) as unknown; so a failed probe looks exactly
   * like an entry that was never probed.
   */
  lemma StatusClassByHundreds(status: Status)
    ensures status.Some? && 200 <= status.value < 600 ==>
      StatusClass(status) == "status-" + ["0123456789"[status.value / 100]] + "xx"
    ensures !(status.Some? && 200 <= status.value < 600) <==> StatusClass(status) == "status-unknown"
    ensures StatusClass(ProbeStatus(HeadFailed)) == StatusClass(None)
  {
  }
}
