/** The offset walk shared by `ingest_patents` and `ingest_journals`: request
    a page at the current offset, stop on a non-OK status, otherwise save
    the page, advance the offset by the page's `results` and cap the walk
    at `min(total, max_limit)`. The HTTP responses are an abstract sequence
    given in advance; the walk ends when it runs out of them. */
module Pagination {
  import opened Wrappers

  /** What the loop reads from one response: `status_code == ok`, the
      status, `total` and `results` of the JSON body, and the body text. */
  datatype Response = Response(ok: bool, status: int, total: nat, results: nat, body: string)

  /** A saved page: the offset it was requested at and the text written. */
  datatype Page = Page(offset: nat, body: string)

  /** Why the walk ended: the loop condition failed, a non-OK status
      returned early, or the given responses were used up. */
  datatype Stop = Finished | Aborted(status: int) | OutOfResponses

  datatype Walk = Walk(requests: seq<nat>, saved: seq<Page>, stop: Stop)

  /** `max_results` after a response: `total`, lowered to `max_limit`. */
  function Cap(r: Response, maxLimit: nat): (c: nat)
    ensures c <= r.total && c <= maxLimit
    ensures c == r.total || c == maxLimit
  {
    if r.total > maxLimit then maxLimit else r.total
  }

  /** The sum of `results` over a run of responses. */
  function Advanced(rs: seq<Response>): nat
    decreases |rs|
  {
    if |rs| == 0 then 0 else rs[0].results + Advanced(rs[1..])
  }

  lemma {:induction false} AdvancedSnoc(rs: seq<Response>, r: Response)
    ensures Advanced(rs + [r]) == Advanced(rs) + r.results
    decreases |rs|
  {
    if |rs| == 0 {
      assert rs + [r] == [r];
    } else {
      assert (rs + [r])[1..] == rs[1..] + [r];
      AdvancedSnoc(rs[1..], r);
    }
  }

  /** The `while` loop from a given offset and `max_results` (`None` before
      the first response). */
  function Paginate(rs: seq<Response>, offset: nat, cap: Option<nat>, maxLimit: nat): (w: Walk)
    ensures |w.requests| <= |rs|
    ensures |w.saved| <= |w.requests| <= |w.saved| + 1
    ensures w.stop.Aborted? <==> |w.requests| == |w.saved| + 1
    decreases |rs|
  {
    if cap.Some? && offset >= cap.value then Walk([], [], Finished)
    else if |rs| == 0 then Walk([], [], OutOfResponses)
    else if !rs[0].ok then Walk([offset], [], Aborted(rs[0].status))
    else
      var rest := Paginate(rs[1..], offset + rs[0].results, Some(Cap(rs[0], maxLimit)), maxLimit);
      Walk([offset] + rest.requests, [Page(offset, rs[0].body)] + rest.saved, rest.stop)
  }

  /** A page that returns results moves every later offset past its own. */
  lemma {:induction false} AdvancedGrows(rs: seq<Response>, i: nat, j: nat)
    requires i < j <= |rs| && rs[i].results > 0
    ensures Advanced(rs[..i]) < Advanced(rs[..j])
    decreases j
  {
    assert rs[..j] == rs[..j - 1] + [rs[j - 1]];
    AdvancedSnoc(rs[..j - 1], rs[j - 1]);
    if j - 1 > i {
      AdvancedGrows(rs, i, j - 1);
    } else {
      assert rs[..j - 1] == rs[..i];
    }
  }

  /** The loop as the scripts start it: offset 0 and no total yet. */
  function Ingest(rs: seq<Response>, maxLimit: nat): (w: Walk)
    ensures |rs| > 0 ==> |w.requests| >= 1 && w.requests[0] == 0
    ensures |rs| == 0 ==> w == Walk([], [], OutOfResponses)
  {
    Paginate(rs, 0, None, maxLimit)
  }

  /** The k-th request is made at the starting offset plus the `results` of
      every earlier response. */
  lemma {:induction false} WalkOffsets(rs: seq<Response>, offset: nat, cap: Option<nat>, maxLimit: nat)
    ensures var w := Paginate(rs, offset, cap, maxLimit);
            forall k :: 0 <= k < |w.requests| ==> w.requests[k] == offset + Advanced(rs[..k])
    decreases |rs|
  {
    var w := Paginate(rs, offset, cap, maxLimit);
    assert rs[..0] == [];
    if !(cap.Some? && offset >= cap.value) && |rs| > 0 && rs[0].ok {
      var next := offset + rs[0].results;
      var c := Some(Cap(rs[0], maxLimit));
      WalkOffsets(rs[1..], next, c, maxLimit);
      var rest := Paginate(rs[1..], next, c, maxLimit);
      assert w.requests == [offset] + rest.requests;
      forall k | 1 <= k < |w.requests| ensures w.requests[k] == offset + Advanced(rs[..k]) {
        assert w.requests[k] == rest.requests[k - 1];
        assert rs[..k][1..] == rs[1..][..k - 1];
      }
    }
  }

  /** Every saved page is the body of an OK response, in response order,
      at the offset of its request. */
  lemma {:induction false} WalkSaved(rs: seq<Response>, offset: nat, cap: Option<nat>, maxLimit: nat)
    ensures var w := Paginate(rs, offset, cap, maxLimit);
            forall k :: 0 <= k < |w.saved| ==> rs[k].ok && w.saved[k] == Page(w.requests[k], rs[k].body)
    decreases |rs|
  {
    var w := Paginate(rs, offset, cap, maxLimit);
    if !(cap.Some? && offset >= cap.value) && |rs| > 0 && rs[0].ok {
      var next := offset + rs[0].results;
      var c := Some(Cap(rs[0], maxLimit));
      WalkSaved(rs[1..], next, c, maxLimit);
      var rest := Paginate(rs[1..], next, c, maxLimit);
      forall k | 1 <= k < |w.saved| ensures rs[k].ok && w.saved[k] == Page(w.requests[k], rs[k].body) {
        assert w.saved[k] == rest.saved[k - 1] && w.requests[k] == rest.requests[k - 1];
        assert rs[1..][k - 1] == rs[k];
      }
    }
  }

  /** An abort is caused by the response to the last request, carries its
      status, and saves nothing for it. */
  lemma {:induction false} WalkAbort(rs: seq<Response>, offset: nat, cap: Option<nat>, maxLimit: nat)
    ensures var w := Paginate(rs, offset, cap, maxLimit);
            w.stop.Aborted? ==> !rs[|w.saved|].ok && w.stop.status == rs[|w.saved|].status
    ensures var w := Paginate(rs, offset, cap, maxLimit);
            w.stop.OutOfResponses? ==> |w.requests| == |rs|
    decreases |rs|
  {
    if !(cap.Some? && offset >= cap.value) && |rs| > 0 && rs[0].ok {
      WalkAbort(rs[1..], offset + rs[0].results, Some(Cap(rs[0], maxLimit)), maxLimit);
    }
  }

  /** The walk goes on exactly while the offset is below the cap: every
      request after the first is made below the cap of the response before
      it, and a finished walk ends at or above the last cap. */
  lemma {:induction false} WalkContinues(rs: seq<Response>, offset: nat, cap: Option<nat>, maxLimit: nat)
    ensures var w := Paginate(rs, offset, cap, maxLimit);
            |w.requests| > 0 ==> cap.None? || offset < cap.value
    ensures var w := Paginate(rs, offset, cap, maxLimit);
            forall k :: 1 <= k < |w.requests| ==> offset + Advanced(rs[..k]) < Cap(rs[k - 1], maxLimit)
    ensures var w := Paginate(rs, offset, cap, maxLimit);
            w.stop.Finished? && |w.saved| == 0 ==> cap.Some? && offset >= cap.value
    ensures var w := Paginate(rs, offset, cap, maxLimit);
            w.stop.Finished? && |w.saved| > 0 ==>
              offset + Advanced(rs[..|w.saved|]) >= Cap(rs[|w.saved| - 1], maxLimit)
    decreases |rs|
  {
    var w := Paginate(rs, offset, cap, maxLimit);
    if !(cap.Some? && offset >= cap.value) && |rs| > 0 && rs[0].ok {
      var next := offset + rs[0].results;
      var c := Some(Cap(rs[0], maxLimit));
      WalkContinues(rs[1..], next, c, maxLimit);
      var rest := Paginate(rs[1..], next, c, maxLimit);
      forall k | 1 <= k <= |rs|
        ensures offset + Advanced(rs[..k]) == next + Advanced(rs[1..][..k - 1])
      {
        assert rs[..k][1..] == rs[1..][..k - 1];
      }
      assert rs[1..][..0] == [];
      forall k | 1 <= k < |w.requests| ensures offset + Advanced(rs[..k]) < Cap(rs[k - 1], maxLimit) {
        if k > 1 {
          assert rs[1..][k - 2] == rs[k - 1];
        }
      }
      if w.stop.Finished? && |w.saved| > 0 {
        var n := |w.saved|;
        if n > 1 {
          assert rs[1..][n - 2] == rs[n - 1];
        }
      }
    }
  }

  /** When every OK response advances the offset, the requested offsets
      strictly increase, so no two saved pages share an offset. */
  lemma {:induction false} OffsetsIncrease(rs: seq<Response>, offset: nat, cap: Option<nat>, maxLimit: nat)
    requires forall k :: 0 <= k < |rs| && rs[k].ok ==> rs[k].results > 0
    ensures var w := Paginate(rs, offset, cap, maxLimit);
            forall i, j :: 0 <= i < j < |w.requests| ==> w.requests[i] < w.requests[j]
    ensures var w := Paginate(rs, offset, cap, maxLimit);
            forall k :: 0 <= k < |w.requests| ==> w.requests[k] >= offset
    decreases |rs|
  {
    var w := Paginate(rs, offset, cap, maxLimit);
    if !(cap.Some? && offset >= cap.value) && |rs| > 0 && rs[0].ok {
      var next: nat := offset + rs[0].results;
      var c: Option<nat> := Some(Cap(rs[0], maxLimit));
      var tail := rs[1..];
      assert forall k :: 0 <= k < |tail| && tail[k].ok ==> tail[k].results > 0 by {
        forall k | 0 <= k < |tail| && tail[k].ok ensures tail[k].results > 0 {
          assert tail[k] == rs[k + 1];
        }
      }
      OffsetsIncrease(tail, next, c, maxLimit);
      assert forall k :: 0 <= k < |Paginate(tail, next, c, maxLimit).requests| ==>
               Paginate(tail, next, c, maxLimit).requests[k] >= next;
      assert forall i, j :: 0 <= i < j < |Paginate(tail, next, c, maxLimit).requests| ==>
               Paginate(tail, next, c, maxLimit).requests[i] < Paginate(tail, next, c, maxLimit).requests[j];
      var rest := Paginate(tail, next, c, maxLimit).requests;
      assert w.requests == [offset] + rest;
      assert rs[0].results > 0;
      forall i, j | 0 <= i < j < |w.requests| ensures w.requests[i] < w.requests[j] {
        assert w.requests[j] == rest[j - 1];
        if i > 0 {
          assert w.requests[i] == rest[i - 1];
        }
      }
    }
  }

  /** A page that reports no results while the cap is still ahead makes the
      loop ask for the same offset again. */
  lemma NoProgressRepeats(rs: seq<Response>, maxLimit: nat)
    requires |rs| >= 2 && rs[0].ok && rs[0].results == 0 && Cap(rs[0], maxLimit) > 0
    ensures var w := Ingest(rs, maxLimit);
            |w.requests| >= 2 && w.requests[0] == w.requests[1] == 0
  {
    var rest := Paginate(rs[1..], 0, Some(Cap(rs[0], maxLimit)), maxLimit);
    assert rest.requests[0] == 0;
    assert Ingest(rs, maxLimit).requests == [0] + rest.requests;
  }

  /** Completeness: when every response is OK with the same cap, and the
      offsets reach the cap only after the last response, the walk saves
      every response and then finishes. */
  lemma {:induction false} FetchesUntilCap(rs: seq<Response>, offset: nat, cap: Option<nat>, c: nat, maxLimit: nat)
    requires |rs| >= 1
    requires forall k :: 0 <= k < |rs| ==> rs[k].ok && Cap(rs[k], maxLimit) == c
    requires cap.None? || cap == Some(c)
    requires offset + Advanced(rs[..|rs| - 1]) < c <= offset + Advanced(rs)
    ensures var w := Paginate(rs, offset, cap, maxLimit);
            |w.saved| == |rs| && w.stop == Finished
    decreases |rs|
  {
    var n := |rs|;
    assert offset < c by {
      if n > 1 {
        assert rs[..n - 1][0] == rs[0];
      } else {
        assert rs[..0] == [];
      }
    }
    var next := offset + rs[0].results;
    var tail := rs[1..];
    if n == 1 {
      assert tail == [] && rs[1..] == [];
    } else {
      assert rs[..n - 1][1..] == tail[..|tail| - 1];
      assert next + Advanced(tail[..|tail| - 1]) == offset + Advanced(rs[..n - 1]);
      forall k | 0 <= k < |tail| ensures tail[k].ok && Cap(tail[k], maxLimit) == c {
        assert tail[k] == rs[k + 1];
      }
      FetchesUntilCap(tail, next, Some(c), c, maxLimit);
    }
  }
}
