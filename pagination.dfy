/** Reading a user's whole submission feed. The feed answers a request for a
    cursor (a time in epoch seconds) with at most 500 submissions from that time
    on; the reader keeps asking, moving the cursor one second past the last
    submission of each full page, until a page comes back empty or short. */
module Pagination {
  import opened Domain

  const MaxSubmissionsPerRequest: nat := 500

  /** The feed, as the answer to a request for each cursor: None when the request
      or the decoding of its answer fails. */
  type PageSource = int -> Option<seq<Submission>>

  /** A page that makes the reader ask again. */
  predicate IsFull(page: Option<seq<Submission>>)
  {
    page.Some? && |page.value| >= MaxSubmissionsPerRequest
  }

  /** One second past the LAST element of the page. When the page is in time
      order, as the feed serves it, that is also past every element of the page. */
  function NextCursor(page: seq<Submission>): (cursor: int)
    requires |page| > 0
    ensures page[|page| - 1].epochSecond < cursor
    ensures (forall i, j :: 0 <= i < j < |page| ==> page[i].epochSecond <= page[j].epochSecond) ==>
              forall i :: 0 <= i < |page| ==> page[i].epochSecond < cursor
  {
    page[|page| - 1].epochSecond + 1
  }

  /** The assumption under which the reader stops: full pages are only served for
      cursors up to `horizon`, and a full page ends no earlier than its cursor. A
      feed that holds finitely many submissions, sorted by time, meets it. */
  ghost predicate FiniteSource(source: PageSource, horizon: int)
  {
    forall c :: IsFull(source(c)) ==> c <= horizon && NextCursor(source(c).value) > c
  }

  /** The cursors `cursors` are the requests of one complete read from `from`:
      the first asks for `from`, each later one follows the full page before it,
      and the last page is not full (empty, short, or failed). */
  ghost predicate IsTrace(source: PageSource, from: int, cursors: seq<int>)
  {
    && |cursors| >= 1 && cursors[0] == from
    && (forall i :: 0 <= i < |cursors| - 1 ==>
          IsFull(source(cursors[i])) && cursors[i + 1] == NextCursor(source(cursors[i]).value))
    && !IsFull(source(cursors[|cursors| - 1]))
  }

  /** The pages answered for `cursors`, joined in order. */
  ghost function Fetched(source: PageSource, cursors: seq<int>): seq<Submission>
    requires forall i :: 0 <= i < |cursors| ==> source(cursors[i]).Some?
  {
    if cursors == [] then [] else source(cursors[0]).value + Fetched(source, cursors[1..])
  }

  lemma {:induction false} FetchedSnoc(source: PageSource, cursors: seq<int>, c: int)
    requires forall i :: 0 <= i < |cursors| ==> source(cursors[i]).Some?
    requires source(c).Some?
    ensures forall i :: 0 <= i < |cursors + [c]| ==> source((cursors + [c])[i]).Some?
    ensures Fetched(source, cursors + [c]) == Fetched(source, cursors) + source(c).value
  {
    if cursors == [] {
      assert [] + [c] == [c];
      assert Fetched(source, [c]) == source(c).value + Fetched(source, []);
    } else {
      assert (cursors + [c])[1..] == cursors[1..] + [c];
      FetchedSnoc(source, cursors[1..], c);
    }
  }

  function Prepend(prefix: seq<Submission>, rest: Option<seq<Submission>>): Option<seq<Submission>>
  {
    match rest
    case None => None
    case Some(r) => Some(prefix + r)
  }

  lemma PrependJoins(a: seq<Submission>, b: seq<Submission>, rest: Option<seq<Submission>>)
    ensures Prepend([], rest) == rest
    ensures Prepend(a, Prepend(b, rest)) == Prepend(a + b, rest)
  {
    if rest.Some? {
      assert [] + rest.value == rest.value;
      assert a + (b + rest.value) == (a + b) + rest.value;
    }
  }

  /** The whole read from `cursor` as one value: None as soon as a request fails. */
  ghost function Paginate(source: PageSource, cursor: int, horizon: int): Option<seq<Submission>>
    requires FiniteSource(source, horizon)
    decreases horizon + 1 - cursor
  {
    var page := source(cursor);
    if !IsFull(page) then page
    else Prepend(page.value, Paginate(source, NextCursor(page.value), horizon))
  }

  /** How far the feed is read does not depend on which bound was used to show
      that the reading ends. */
  lemma {:induction false} PaginateHorizonIrrelevant(source: PageSource, cursor: int, h1: int, h2: int)
    requires FiniteSource(source, h1) && FiniteSource(source, h2)
    ensures Paginate(source, cursor, h1) == Paginate(source, cursor, h2)
    decreases h1 + 1 - cursor
  {
    var page := source(cursor);
    if IsFull(page) {
      PaginateHorizonIrrelevant(source, NextCursor(page.value), h1, h2);
    }
  }

  /** Reads the feed from `fromSecond`. On success the result is all pages joined
      in request order; a failed request fails the whole read. `cursors` are the
      requests made; `horizon` only bounds the number of requests. */
  method FetchAllSubmissions(source: PageSource, fromSecond: int, ghost horizon: int)
    returns (result: Option<seq<Submission>>, ghost cursors: seq<int>)
    requires FiniteSource(source, horizon)
    ensures IsTrace(source, fromSecond, cursors)
    ensures result.None? <==> source(cursors[|cursors| - 1]).None?
    ensures result.Some? ==> (forall i :: 0 <= i < |cursors| ==> source(cursors[i]).Some?)
                             && result.value == Fetched(source, cursors)
    ensures result == Paginate(source, fromSecond, horizon)
  {
    var all: seq<Submission> := [];
    var cursor := fromSecond;
    cursors := [fromSecond];
    PrependJoins([], [], Paginate(source, fromSecond, horizon));
    while true
      invariant |cursors| >= 1 && cursors[0] == fromSecond && cursors[|cursors| - 1] == cursor
      invariant forall i :: 0 <= i < |cursors| - 1 ==>
                  IsFull(source(cursors[i])) && cursors[i + 1] == NextCursor(source(cursors[i]).value)
      invariant all == Fetched(source, cursors[..|cursors| - 1])
      invariant Paginate(source, fromSecond, horizon) == Prepend(all, Paginate(source, cursor, horizon))
      decreases horizon + 1 - cursor
    {
      var page := source(cursor);
      ghost var done := cursors[..|cursors| - 1];
      assert cursors == done + [cursor];
      if page.None? {
        result := None;
        return;
      }
      FetchedSnoc(source, done, cursor);
      if |page.value| == 0 {
        assert all + page.value == all;
        break;
      }
      PrependJoins(all, page.value, Paginate(source, NextCursor(page.value), horizon));
      all := all + page.value;
      if |page.value| < MaxSubmissionsPerRequest {
        break;
      }
      cursor := NextCursor(page.value);
      cursors := cursors + [cursor];
      assert cursors[..|cursors| - 1] == done + [cursors[|cursors| - 2]];
    }
    result := Some(all);
  }

  /** When the feed honours its page size, every page but the last holds exactly
      500 submissions. */
  ghost predicate HonoursPageSize(source: PageSource)
  {
    forall c :: PageSizeAtMostLimit(source(c))
  }

  predicate PageSizeAtMostLimit(page: Option<seq<Submission>>)
  {
    page.Some? ==> |page.value| <= MaxSubmissionsPerRequest
  }

  lemma FullPagesHoldExactlyTheLimit(source: PageSource, from: int, cursors: seq<int>, i: int)
    requires HonoursPageSize(source)
    requires IsTrace(source, from, cursors)
    requires 0 <= i < |cursors| - 1
    ensures |source(cursors[i]).value| == MaxSubmissionsPerRequest
  {
    var c := cursors[i];
    assert IsFull(source(c));
    assert PageSizeAtMostLimit(source(c));
  }
}
