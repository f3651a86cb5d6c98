/** Paging through the features of a collection: Features in internal/source/memengine/memengine.go
    and handleItems in internal/server/features.go. */
module Items {
  import opened Options
  import opened Engine

  const DEFAULT_LIMIT := 100
  const MAX_LIMIT := 10000

  // A query parameter after parsing: strconv.Atoi fails on anything but a number.
  datatype Param = Absent | Malformed | Number(n: int)

  datatype Request = Request(bbox: Option<Bound>, limit: Param, offset: Param)

  datatype Response = BadRequest | Page(features: seq<int>, matched: nat, next: Option<Request>)

  // ----- one page

  function PageOf(idx: seq<int>, offset: int, limit: int): (page: seq<int>)
    ensures |page| <= |idx|
  {
    var rest := if offset > 0 then (if offset >= |idx| then [] else idx[offset..]) else idx;
    if limit > 0 && limit < |rest| then rest[..limit] else rest
  }

  // The features a request is about, in order.
  ghost predicate Matches(bounds: seq<Bound>, extent: Bound, bbox: Option<Bound>, idx: seq<int>) {
    if bbox.Some? then Answer(bounds, extent, bbox.value, idx)
    else |idx| == |bounds| && forall i :: 0 <= i < |idx| ==> idx[i] == i
  }

  method Features(e: Index, bbox: Option<Bound>, offset: int, limit: int) returns (page: seq<int>, matched: nat)
    requires e.Valid()
    ensures forall idx :: Matches(e.bounds, e.extent, bbox, idx) ==>
      page == PageOf(idx, offset, limit) && matched == |idx|
  {
    var idx;
    if bbox.Some? {
      idx := e.Query(bbox.value);
    } else {
      idx := seq(|e.bounds|, i => i);
    }
    MatchesIsUnique(e.bounds, e.extent, bbox, idx);
    matched := |idx|;
    page := idx;
    if offset > 0 {
      if offset >= |page| {
        page := [];
      } else {
        page := page[offset..];
      }
    }
    if limit > 0 && limit < |page| {
      page := page[..limit];
    }
  }

  // There is exactly one list of matches, so the page and the answer are determined.
  lemma MatchesExists(bounds: seq<Bound>, extent: Bound, bbox: Option<Bound>)
    ensures exists idx :: Matches(bounds, extent, bbox, idx)
  {
    hide Answer;
    var idx: seq<int>;
    if bbox.Some? {
      idx := AnswerExists(bounds, extent, bbox.value);
    } else {
      idx := seq(|bounds|, i => i);
    }
    assert Matches(bounds, extent, bbox, idx);
  }

  lemma MatchesIsUnique(bounds: seq<Bound>, extent: Bound, bbox: Option<Bound>, a: seq<int>)
    requires Matches(bounds, extent, bbox, a)
    ensures forall b :: Matches(bounds, extent, bbox, b) ==> b == a
  {
    hide Filter;
    forall b | Matches(bounds, extent, bbox, b)
      ensures b == a
    {
      if bbox.Some? {
        SameAnswer(bounds, extent, bbox.value, a, b);
      }
    }
  }

  lemma SameAnswer(bounds: seq<Bound>, extent: Bound, box: Bound, a: seq<int>, b: seq<int>)
    requires Answer(bounds, extent, box, a) && Answer(bounds, extent, box, b)
    ensures a == b
  {
    hide CellsOf, Meet, Intersects;
    forall k | 0 <= k < |a|
      ensures a[k] in b
    {
      assert a[k] in a;
    }
    forall k | 0 <= k < |b|
      ensures b[k] in a
    {
      assert b[k] in b;
    }
    SameAscending(a, b);
  }

  // ----- one request

  predicate Acceptable(r: Request) {
    && (r.bbox.Some? ==> WellFormed(r.bbox.value))
    && (r.limit.Absent? || (r.limit.Number? && r.limit.n >= 1))
    && (r.offset.Absent? || (r.offset.Number? && r.offset.n >= 0))
  }

  function LimitOf(r: Request): int {
    if r.limit.Number? then (if r.limit.n <= MAX_LIMIT then r.limit.n else MAX_LIMIT) else DEFAULT_LIMIT
  }

  function OffsetOf(r: Request): int {
    if r.offset.Number? then r.offset.n else 0
  }

  // The answer to a request, given the features it is about.
  function Respond(idx: seq<int>, r: Request): Response {
    if !Acceptable(r) then BadRequest
    else
      var page := PageOf(idx, OffsetOf(r), LimitOf(r));
      Page(page, |idx|,
           if |idx| <= OffsetOf(r) + |page| then None
           else Some(Request(r.bbox, Number(LimitOf(r)), Number(OffsetOf(r) + |page|))))
  }

  // A page has as many matches as were asked for, a hundred without a limit and at most ten thousand,
  // or all that are left; they are those from the offset on. The number of matches is that of all
  // pages together, and there is a next page exactly when this one does not reach it.
  lemma PageMeans(idx: seq<int>, r: Request)
    requires Acceptable(r)
    ensures
      var resp := Respond(idx, r);
      var limit := if r.limit.Absent? then 100 else if r.limit.n > 10000 then 10000 else r.limit.n;
      var offset := if r.offset.Absent? then 0 else r.offset.n;
      && resp.Page? && resp.matched == |idx|
      && |resp.features| ==
         (if offset >= |idx| then 0 else if |idx| - offset <= limit then |idx| - offset else limit)
      && (forall k :: 0 <= k < |resp.features| ==> offset + k < |idx| && resp.features[k] == idx[offset + k])
      && (resp.next.Some? <==> offset + |resp.features| < |idx|)
  {
  }

  method HandleItems(e: Index, r: Request) returns (resp: Response)
    requires e.Valid()
    ensures resp == BadRequest <==> !Acceptable(r)
    ensures forall idx :: Matches(e.bounds, e.extent, r.bbox, idx) ==> resp == Respond(idx, r)
  {
    hide Matches, PageOf;
    if r.bbox.Some? && (r.bbox.value.min.x > r.bbox.value.max.x || r.bbox.value.min.y > r.bbox.value.max.y) {
      return BadRequest;
    }
    var limit := DEFAULT_LIMIT;
    if !r.limit.Absent? {
      if r.limit.Malformed? || r.limit.n < 1 {
        return BadRequest;
      }
      limit := if r.limit.n <= MAX_LIMIT then r.limit.n else MAX_LIMIT;
    }
    var offset := 0;
    if !r.offset.Absent? {
      if r.offset.Malformed? || r.offset.n < 0 {
        return BadRequest;
      }
      offset := r.offset.n;
    }
    var page, matched := Features(e, r.bbox, offset, limit);
    var next := None;
    if matched > offset + |page| {
      next := Some(Request(r.bbox, Number(limit), Number(offset + |page|)));
    }
    resp := Page(page, matched, next);
  }

  // ----- following the links

  // The link leads on: to a later offset, with the same box and the same limit.
  lemma NextIsLater(idx: seq<int>, r: Request)
    requires Respond(idx, r).Page? && Respond(idx, r).next.Some?
    ensures
      var next := Respond(idx, r).next.value;
      && Acceptable(next) && next.bbox == r.bbox && LimitOf(next) == LimitOf(r)
      && OffsetOf(r) < OffsetOf(next) < |idx| && OffsetOf(next) == OffsetOf(r) + LimitOf(r)
  {
  }

  // All features of the pages from a request on, as a client that follows the links sees them.
  ghost function Followed(idx: seq<int>, r: Request): seq<int>
    decreases |idx| - OffsetOf(r)
  {
    var resp := Respond(idx, r);
    if resp.BadRequest? then []
    else if resp.next.None? then resp.features
    else
      NextIsLater(idx, r);
      resp.features + Followed(idx, resp.next.value)
  }

  // How many requests that takes.
  ghost function Requests(idx: seq<int>, r: Request): nat
    decreases |idx| - OffsetOf(r)
  {
    var resp := Respond(idx, r);
    if resp.BadRequest? || resp.next.None? then 1
    else
      NextIsLater(idx, r);
      1 + Requests(idx, resp.next.value)
  }

  lemma PagesJoin(idx: seq<int>, offset: int, limit: int)
    requires 0 <= offset < offset + limit < |idx|
    ensures PageOf(idx, offset, limit) + idx[offset + limit..] == idx[offset..]
  {
  }

  // From any offset on the pages are the rest of the matches, each once and in order.
  lemma {:induction false} FollowedIsRest(idx: seq<int>, r: Request)
    requires Acceptable(r)
    ensures Followed(idx, r) == if OffsetOf(r) < |idx| then idx[OffsetOf(r)..] else []
    decreases |idx| - OffsetOf(r)
  {
    var resp := Respond(idx, r);
    if resp.next.Some? {
      NextIsLater(idx, r);
      FollowedIsRest(idx, resp.next.value);
      PagesJoin(idx, OffsetOf(r), LimitOf(r));
    }
  }

  // A client that starts without an offset gets every match exactly once, and stops after as many
  // requests as full pages are needed.
  lemma FollowedIsAll(idx: seq<int>, r: Request)
    requires Acceptable(r) && OffsetOf(r) == 0
    ensures Followed(idx, r) == idx
    ensures Requests(idx, r) == if |idx| == 0 then 1 else (|idx| - 1) / LimitOf(r) + 1
  {
    FollowedIsRest(idx, r);
    RequestsFrom(idx, r);
  }

  lemma {:induction false} RequestsFrom(idx: seq<int>, r: Request)
    requires Acceptable(r) && OffsetOf(r) <= |idx|
    ensures Requests(idx, r) == if |idx| == OffsetOf(r) then 1 else (|idx| - OffsetOf(r) - 1) / LimitOf(r) + 1
    decreases |idx| - OffsetOf(r)
  {
    hide PageOf;
    var resp := Respond(idx, r);
    PageSize(idx, OffsetOf(r), LimitOf(r));
    var left, limit := |idx| - OffsetOf(r), LimitOf(r);
    if resp.next.Some? {
      NextIsLater(idx, r);
      RequestsFrom(idx, resp.next.value);
      assert (left - 1) / limit == (left - limit - 1) / limit + 1 by {
        OneQuotientLess(left - 1, limit);
      }
    } else if left > 0 {
      SmallQuotient(left - 1, limit);
    }
  }

  lemma PageSize(idx: seq<int>, offset: int, limit: int)
    requires 0 <= offset <= |idx| && limit > 0
    ensures |PageOf(idx, offset, limit)| == if |idx| - offset <= limit then |idx| - offset else limit
  {
  }

  lemma OneQuotientLess(a: int, b: int)
    requires b > 0 && a >= b
    ensures a / b == (a - b) / b + 1
  {
    var p, q := a / b, (a - b) / b;
    assert a == b * p + a % b && a - b == b * q + (a - b) % b;
    var d := p - q - 1;
    assert b * d == (a - b) % b - a % b;
    assert d >= 1 ==> b * d >= b;
    assert d <= -1 ==> b * d <= -b;
  }

  lemma SmallQuotient(a: int, b: int)
    requires 0 <= a < b
    ensures a / b == 0
  {
  }
}
