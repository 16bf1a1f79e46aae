/**
 Opaque cursors over an ordered list.  A cursor is the URL-safe base64 of a JSON payload with
 its padding stripped, and names the last item of the page before.
 */
module Cursor {
  import opened Arithmetic
  import opened Base64
  import opened Options

  /** A parsed JSON value; `Plain` holds numbers, booleans and arrays by their printed form. */
  datatype Json = Null | Text(text: string) | Object(members: map<string, Json>) | Plain(printed: string)

  /** JSON serialisation is code outside this model: `load` undoes `dump`. */
  datatype Codec = Codec(dump: Json -> Bytes, load: Bytes -> Option<Json>, print_: Json -> string) {
    ghost predicate Lawful() {
      forall value :: dump(value) != [] && load(dump(value)) == Some(value)
    }

    function Str(value: Json): string {
      if value.Text? then value.text else print_(value)
    }
  }

  datatype Decoded = NoCursor | Payload(value: Json) | Invalid

  function EncodeCursor(codec: Codec, value: Json): string {
    StripPadding(Encode(codec.dump(value), true))
  }

  function DecodeCursor(codec: Codec, cursor: Option<string>): Decoded {
    if cursor.None? || cursor.value == "" then NoCursor
    else
      match Decode(RestorePadding(cursor.value), true)
      case None => Invalid
      case Some(bytes) =>
        match codec.load(bytes)
        case None => Invalid
        case Some(value) => if value.Null? then NoCursor else Payload(value)
  }

  /** Every payload survives; a JSON null reads as an absent cursor. */
  lemma CursorRoundTrip(codec: Codec, value: Json)
    requires codec.Lawful()
    ensures DecodeCursor(codec, Some(EncodeCursor(codec, value))) == if value.Null? then NoCursor else Payload(value)
  {
    assert codec.dump(value) != [];
    PaddingRestored(codec.dump(value), true);
    RoundTrip(codec.dump(value), true);
  }

  // ---------------------------------------------------------------------------
  // One page
  // ---------------------------------------------------------------------------

  datatype PageResult<T> =
    | Page(items: seq<T>, next: Option<string>, hasMore: bool)
    | InvalidCursor      // 400 validation_error
    | NotAnObject        // the payload has no `get`: an unhandled error

  datatype Listing<!T> = Listing(codec: Codec, items: seq<T>, id: T -> string, limit: int)

  /** `s[lo:hi]`, where a negative `hi` counts from the end. */
  function PySlice<T>(s: seq<T>, lo: nat, hi: int): seq<T> {
    var stop := if hi < 0 then hi + |s| else if hi < |s| then hi else |s|;
    if lo <= stop then s[lo..stop] else []
  }

  function IdPayload(id: string): Json {
    Object(map["id" := Text(id)])
  }

  function PageAt<T>(list: Listing<T>, start: nat): PageResult<T> {
    var slice := PySlice(list.items, start, start + list.limit + 1);
    var page := PySlice(slice, 0, list.limit);
    var more := |slice| > list.limit;
    Page(page, if more && page != [] then Some(EncodeCursor(list.codec, IdPayload(list.id(page[|page| - 1])))) else None, more)
  }

  /** Where the scan for an id resumes: after its first occurrence, or from the beginning. */
  ghost predicate ResumesAt<T>(list: Listing<T>, wanted: string, start: nat) {
    && start <= |list.items|
    && (start == 0 ==> forall i :: 0 <= i < |list.items| ==> list.id(list.items[i]) != wanted)
    && (start > 0 ==> list.id(list.items[start - 1]) == wanted && forall i :: 0 <= i < start - 1 ==> list.id(list.items[i]) != wanted)
  }

  function Resume<T>(list: Listing<T>, wanted: string): (start: nat)
    ensures ResumesAt(list, wanted, start)
  {
    ResumeFrom(list, wanted, 0)
  }

  function ResumeFrom<T>(list: Listing<T>, wanted: string, from: nat): (start: nat)
    requires from <= |list.items| && forall i :: 0 <= i < from ==> list.id(list.items[i]) != wanted
    ensures ResumesAt(list, wanted, start)
    decreases |list.items| - from
  {
    if from == |list.items| then 0
    else if list.id(list.items[from]) == wanted then from + 1
    else ResumeFrom(list, wanted, from + 1)
  }

  lemma ResumeUnique<T>(list: Listing<T>, wanted: string, a: nat, b: nat)
    requires ResumesAt(list, wanted, a) && ResumesAt(list, wanted, b)
    ensures a == b
  {
    if a > 0 {
      assert list.id(list.items[a - 1]) == wanted;
    }
    if b > 0 {
      assert list.id(list.items[b - 1]) == wanted;
    }
  }

  function CursorId(codec: Codec, members: map<string, Json>): string {
    if "id" in members then codec.Str(members["id"]) else ""
  }

  function PageFor<T>(list: Listing<T>, cursor: Option<string>): PageResult<T> {
    match DecodeCursor(list.codec, cursor)
    case NoCursor => PageAt(list, 0)
    case Invalid => InvalidCursor
    case Payload(Object(members)) => PageAt(list, Resume(list, CursorId(list.codec, members)))
    case Payload(_) => NotAnObject
  }

  /** `paginate_items`, for every limit and every cursor. */
  method PaginateItems<T>(list: Listing<T>, cursor: Option<string>) returns (result: PageResult<T>)
    ensures result == PageFor(list, cursor)
  {
    var items, startIndex := list.items, 0;
    var payload := DecodeCursor(list.codec, cursor);
    match payload {
      case Invalid => return InvalidCursor;
      case NoCursor =>
      case Payload(value) =>
        if !value.Object? {
          return NotAnObject;
        }
        var cursorId := CursorId(list.codec, value.members);
        var index := 0;
        while index < |items|
          invariant index <= |items| && startIndex == 0
          invariant forall i :: 0 <= i < index ==> list.id(items[i]) != cursorId
        {
          if list.id(items[index]) == cursorId {
            startIndex := index + 1;
            break;
          }
          index := index + 1;
        }
        ResumeUnique(list, cursorId, startIndex, Resume(list, cursorId));
    }
    var slice := PySlice(items, startIndex, startIndex + list.limit + 1);
    var hasMore := |slice| > list.limit;
    var pageItems := PySlice(slice, 0, list.limit);
    var nextCursor := None;
    if hasMore && pageItems != [] {
      nextCursor := Some(EncodeCursor(list.codec, IdPayload(list.id(pageItems[|pageItems| - 1]))));
    }
    result := Page(pageItems, nextCursor, hasMore);
  }

  // ---------------------------------------------------------------------------
  // Following cursors
  // ---------------------------------------------------------------------------

  lemma PageAtMeans<T>(list: Listing<T>, start: nat)
    requires list.limit >= 1 && start <= |list.items|
    ensures var page, stop := PageAt(list, start), Min(start + list.limit, |list.items|);
            && page.items == list.items[start..stop]
            && (page.hasMore <==> start + list.limit < |list.items|)
            && (page.next.Some? <==> page.hasMore)
            && (page.hasMore ==> page.next == Some(EncodeCursor(list.codec, IdPayload(list.id(list.items[stop - 1])))))
  {
    var n, stop := |list.items|, Min(start + list.limit, |list.items|);
    var slice := PySlice(list.items, start, start + list.limit + 1);
    assert slice == list.items[start..Min(start + list.limit + 1, n)];
    assert PySlice(slice, 0, list.limit) == list.items[start..stop];
  }

  /** A cursor made from an id resumes after the first item with that id. */
  lemma PageForId<T>(list: Listing<T>, id: string)
    requires list.codec.Lawful()
    ensures PageFor(list, Some(EncodeCursor(list.codec, IdPayload(id)))) == PageAt(list, Resume(list, id))
  {
    var payload := IdPayload(id);
    CursorRoundTrip(list.codec, payload);
    assert CursorId(list.codec, payload.members) == id;
  }

  /** No earlier item has this item's id. */
  ghost predicate Fresh<T>(list: Listing<T>, i: nat)
    requires i < |list.items|
  {
    forall j :: 0 <= j < i ==> list.id(list.items[j]) != list.id(list.items[i])
  }

  /** From a page at `start` to the next: no item is skipped, and the walk goes back exactly when the last id is stale. */
  ghost predicate Jumps<T>(list: Listing<T>, start: nat, next: nat) {
    && 1 <= list.limit && start + list.limit < |list.items|
    && 1 <= next <= start + list.limit
    && (next == start + list.limit <==> Fresh(list, start + list.limit - 1))
  }

  lemma ResumeJumps<T>(list: Listing<T>, start: nat)
    requires list.limit >= 1 && start + list.limit < |list.items|
    ensures Jumps(list, start, Resume(list, list.id(list.items[start + list.limit - 1])))
  {
    var last := start + list.limit - 1;
    assert ResumesAt(list, list.id(list.items[last]), Resume(list, list.id(list.items[last])));
  }

  /** The page holds the items from `start` on, and gives a cursor exactly when more follow. */
  ghost predicate PageFrom<T>(list: Listing<T>, page: PageResult<T>, start: nat) {
    && 1 <= list.limit && start <= |list.items| && page.Page?
    && page.items == list.items[start..Min(start + list.limit, |list.items|)]
    && (page.next.Some? <==> start + list.limit < |list.items|)
  }

  lemma NextPage<T>(list: Listing<T>, start: nat)
    requires list.codec.Lawful() && list.limit >= 1 && start + list.limit < |list.items|
    ensures PageFor(list, PageAt(list, start).next) == PageAt(list, Resume(list, list.id(list.items[start + list.limit - 1])))
  {
    PageAtMeans(list, start);
    PageForId(list, list.id(list.items[start + list.limit - 1]));
  }

  /** A client asks for the first page, then follows the cursors it is given. */
  ghost predicate IsWalkOf<T(!new)>(answer: Option<string> -> PageResult<T>, pages: seq<PageResult<T>>) {
    && pages != []
    && pages[0] == answer(None)
    && forall k :: 1 <= k < |pages| ==> Follows(answer, pages, k)
  }

  ghost predicate Follows<T>(answer: Option<string> -> PageResult<T>, pages: seq<PageResult<T>>, k: nat)
    requires 1 <= k < |pages|
  {
    pages[k - 1].Page? && pages[k - 1].next.Some? && pages[k] == answer(pages[k - 1].next)
  }

  /** The last page of the walk gives no cursor. */
  ghost predicate EndsWalk<T>(pages: seq<PageResult<T>>) {
    pages != [] && pages[|pages| - 1].Page? && pages[|pages| - 1].next.None?
  }

  ghost predicate IsWalk<T(!new)>(list: Listing<T>, pages: seq<PageResult<T>>) {
    IsWalkOf(cursor => PageFor(list, cursor), pages)
  }

  ghost predicate IsCompleteWalk<T(!new)>(list: Listing<T>, pages: seq<PageResult<T>>) {
    IsWalk(list, pages) && EndsWalk(pages)
  }

  function Visited<T>(pages: seq<PageResult<T>>): seq<T> {
    if pages == [] then [] else (if pages[0].Page? then pages[0].items else []) + Visited(pages[1..])
  }

  lemma VisitedFrom<T>(pages: seq<PageResult<T>>, k: nat)
    requires k < |pages| && pages[k].Page?
    ensures Visited(pages[k..]) == pages[k].items + Visited(pages[k + 1..])
  {
    assert pages[k..][1..] == pages[k + 1..];
  }

  // ---------------------------------------------------------------------------
  // Where the pages of a walk begin
  // ---------------------------------------------------------------------------

  ghost predicate JumpsAt<T>(list: Listing<T>, begins: seq<nat>, k: nat)
    requires k < |begins| - 1
  {
    Jumps(list, begins[k], begins[k + 1])
  }

  ghost predicate Trace<T>(list: Listing<T>, pages: seq<PageResult<T>>, begins: seq<nat>) {
    && |begins| == |pages| > 0 && begins[0] == 0
    && (forall k :: 0 <= k < |pages| ==> PageFrom(list, pages[k], begins[k]))
    && (forall k :: 0 <= k < |pages| - 1 ==> JumpsAt(list, begins, k))
  }

  /** What the walk needs to know of the pages: `at` gives them by position, `answer` by cursor. */
  ghost predicate Serves<T(!new)>(list: Listing<T>, answer: Option<string> -> PageResult<T>, at: nat -> PageResult<T>) {
    && answer(None) == at(0)
    && (forall start: nat :: start <= |list.items| ==> PageFrom(list, at(start), start))
    && (forall start: nat :: start + list.limit < |list.items| ==> Leads(list, answer, at, start))
  }

  ghost predicate Leads<T(!new)>(list: Listing<T>, answer: Option<string> -> PageResult<T>, at: nat -> PageResult<T>, start: nat) {
    at(start).Page? && exists next :: Jumps(list, start, next) && answer(at(start).next) == at(next)
  }

  lemma ListingServes<T(!new)>(list: Listing<T>)
    requires list.codec.Lawful() && list.limit >= 1
    ensures Serves(list, cursor => PageFor(list, cursor), (start: nat) => PageAt(list, start))
  {
    var answer: Option<string> -> PageResult<T> := cursor => PageFor(list, cursor);
    var at: nat -> PageResult<T> := (start: nat) => PageAt(list, start);
    forall start: nat | start <= |list.items| ensures PageFrom(list, at(start), start) {
      PageAtMeans(list, start);
    }
    forall start: nat | start + list.limit < |list.items| ensures Leads(list, answer, at, start) {
      NextPage(list, start);
      ResumeJumps(list, start);
    }
  }

  lemma WalkPrefix<T(!new)>(answer: Option<string> -> PageResult<T>, pages: seq<PageResult<T>>)
    requires IsWalkOf(answer, pages) && |pages| > 1
    ensures IsWalkOf(answer, pages[..|pages| - 1]) && Follows(answer, pages, |pages| - 1)
  {
    var front := pages[..|pages| - 1];
    forall k | 1 <= k < |front| ensures Follows(answer, front, k) {
      assert Follows(answer, pages, k);
    }
  }

  lemma ExtendTrace<T(!new)>(list: Listing<T>, pages: seq<PageResult<T>>, begins: seq<nat>, page: PageResult<T>, next: nat)
    requires Trace(list, pages, begins) && PageFrom(list, page, next) && Jumps(list, begins[|begins| - 1], next)
    ensures Trace(list, pages + [page], begins + [next])
  {
    forall k | 0 <= k < |pages| ensures JumpsAt(list, begins + [next], k) {
      if k < |pages| - 1 {
        assert JumpsAt(list, begins, k);
      }
    }
  }

  lemma {:induction false} ServedWalkHasTrace<T(!new)>(
    list: Listing<T>, answer: Option<string> -> PageResult<T>, at: nat -> PageResult<T>, pages: seq<PageResult<T>>)
    returns (begins: seq<nat>)
    requires Serves(list, answer, at) && IsWalkOf(answer, pages)
    ensures Trace(list, pages, begins)
    ensures pages[|pages| - 1] == at(begins[|pages| - 1])
    decreases |pages|
  {
    var last := |pages| - 1;
    if last == 0 {
      assert pages == [pages[0]];
      assert PageFrom(list, at(0), 0);
      begins := [0];
    } else {
      WalkPrefix(answer, pages);
      var front := pages[..last];
      begins := ServedWalkHasTrace(list, answer, at, front);
      var start := begins[last - 1];
      assert PageFrom(list, front[last - 1], start);
      assert Leads(list, answer, at, start);
      var next: nat :| Jumps(list, start, next) && answer(at(start).next) == at(next);
      assert PageFrom(list, at(next), next);
      ExtendTrace(list, front, begins, pages[last], next);
      assert pages == front + [pages[last]];
      begins := begins + [next];
    }
  }

  lemma WalkHasTrace<T(!new)>(list: Listing<T>, pages: seq<PageResult<T>>) returns (begins: seq<nat>)
    requires list.codec.Lawful() && list.limit >= 1 && IsWalk(list, pages)
    ensures Trace(list, pages, begins)
  {
    ListingServes(list);
    begins := ServedWalkHasTrace(list, cursor => PageFor(list, cursor), (start: nat) => PageAt(list, start), pages);
  }

  // ---------------------------------------------------------------------------
  // Exactly the list
  // ---------------------------------------------------------------------------

  /** Where page `k` begins when every page before it was full. */
  function Offset(limit: nat, k: nat): nat {
    if k == 0 then 0 else Offset(limit, k - 1) + limit
  }

  /** Ids at the ends of full pages do not occur earlier in the list. */
  ghost predicate BoundariesFresh<T>(list: Listing<T>)
    requires list.limit >= 1
  {
    forall k: nat :: FreshBoundary(list, k)
  }

  ghost predicate FreshBoundary<T>(list: Listing<T>, k: nat)
    requires list.limit >= 1
  {
    var end := Offset(list.limit, k) + list.limit;
    end < |list.items| ==> Fresh(list, end - 1)
  }

  lemma {:induction false} BeginsAtOffsets<T>(list: Listing<T>, pages: seq<PageResult<T>>, begins: seq<nat>, k: nat)
    requires Trace(list, pages, begins) && k < |pages|
    requires list.limit >= 1 && forall j :: 0 <= j < k ==> FreshBoundary(list, j)
    ensures begins[k] == Offset(list.limit, k)
  {
    if k > 0 {
      BeginsAtOffsets(list, pages, begins, k - 1);
      assert FreshBoundary(list, k - 1) && JumpsAt(list, begins, k - 1);
    }
  }

  lemma SplitAt<T>(items: seq<T>, a: nat, b: nat)
    requires a <= b <= |items|
    ensures items[a..] == items[a..b] + items[b..]
  {
  }

  lemma {:induction false} RestVisited<T>(list: Listing<T>, pages: seq<PageResult<T>>, begins: seq<nat>, k: nat)
    requires Trace(list, pages, begins) && EndsWalk(pages) && k < |pages|
    requires forall j :: 0 <= j < |pages| - 1 ==> begins[j + 1] == begins[j] + list.limit
    ensures begins[k] <= |list.items| && Visited(pages[k..]) == list.items[begins[k]..]
    decreases |pages| - k
  {
    assert PageFrom(list, pages[k], begins[k]);
    VisitedFrom(pages, k);
    if k < |pages| - 1 {
      assert JumpsAt(list, begins, k);
      RestVisited(list, pages, begins, k + 1);
      SplitAt(list.items, begins[k], begins[k + 1]);
    } else {
      assert Visited(pages[k + 1..]) == [];
    }
  }

  lemma OffsetsStep<T>(list: Listing<T>, pages: seq<PageResult<T>>, begins: seq<nat>)
    requires list.limit >= 1 && Trace(list, pages, begins) && BoundariesFresh(list)
    ensures forall j :: 0 <= j < |pages| - 1 ==> begins[j + 1] == begins[j] + list.limit
  {
    forall j | 0 <= j < |pages| - 1 ensures begins[j + 1] == begins[j] + list.limit {
      BeginsAtOffsets(list, pages, begins, j);
      assert FreshBoundary(list, j) && JumpsAt(list, begins, j);
    }
  }

  lemma {:induction false} RestCount<T>(list: Listing<T>, pages: seq<PageResult<T>>, begins: seq<nat>, k: nat)
    requires Trace(list, pages, begins) && EndsWalk(pages) && k < |pages|
    requires forall j :: 0 <= j < |pages| - 1 ==> begins[j + 1] == begins[j] + list.limit
    requires begins[k] < |list.items| && list.limit >= 1
    ensures |pages| - k == CeilDiv(|list.items| - begins[k], list.limit)
    decreases |pages| - k
  {
    assert PageFrom(list, pages[k], begins[k]);
    if k < |pages| - 1 {
      assert JumpsAt(list, begins, k);
      RestCount(list, pages, begins, k + 1);
    }
  }

  lemma EmptyIsOnePage<T>(list: Listing<T>, pages: seq<PageResult<T>>, begins: seq<nat>)
    requires Trace(list, pages, begins) && list.items == []
    ensures |pages| == 1
  {
    assert 0 < |pages| - 1 ==> JumpsAt(list, begins, 0);
  }

  /** With fresh boundaries the walk visits every item once, in order, in ceil(n / limit) pages. */
  lemma WalkVisitsAll<T(!new)>(list: Listing<T>, pages: seq<PageResult<T>>)
    requires list.codec.Lawful() && list.limit >= 1 && BoundariesFresh(list) && IsCompleteWalk(list, pages)
    ensures Visited(pages) == list.items
    ensures |pages| == if list.items == [] then 1 else CeilDiv(|list.items|, list.limit)
  {
    var begins := WalkHasTrace(list, pages);
    OffsetsStep(list, pages, begins);
    RestVisited(list, pages, begins, 0);
    assert pages[0..] == pages;
    if list.items != [] {
      RestCount(list, pages, begins, 0);
    } else {
      assert |pages| == 1 by { EmptyIsOnePage(list, pages, begins); }
    }
  }

  /** With fresh boundaries no walk goes on for ever: each page after the first begins inside the list. */
  lemma WalkBounded<T(!new)>(list: Listing<T>, pages: seq<PageResult<T>>)
    requires list.codec.Lawful() && list.limit >= 1 && BoundariesFresh(list) && IsWalk(list, pages)
    ensures |pages| <= |list.items| + 1
  {
    var begins := WalkHasTrace(list, pages);
    OffsetsStep(list, pages, begins);
    BeginsGrow(begins, list.limit, |pages| - 1);
    assert PageFrom(list, pages[|pages| - 1], begins[|pages| - 1]);
  }

  lemma {:induction false} BeginsGrow(begins: seq<nat>, limit: int, k: nat)
    requires limit >= 1 && k < |begins| && forall j :: 0 <= j < |begins| - 1 ==> begins[j + 1] == begins[j] + limit
    ensures begins[k] >= k
  {
    if k > 0 {
      BeginsGrow(begins, limit, k - 1);
      assert begins[k - 1 + 1] == begins[k - 1] + limit;
    }
  }

  lemma ExtendWalk<T(!new)>(list: Listing<T>, pages: seq<PageResult<T>>, page: PageResult<T>)
    requires IsWalk(list, pages) && pages[|pages| - 1].Page? && pages[|pages| - 1].next.Some?
    requires page == PageFor(list, pages[|pages| - 1].next)
    ensures IsWalk(list, pages + [page])
  {
    var answer: Option<string> -> PageResult<T> := cursor => PageFor(list, cursor);
    assert IsWalkOf(answer, pages);
    ExtendWalkOf(answer, pages, page);
  }

  lemma ExtendWalkOf<T(!new)>(answer: Option<string> -> PageResult<T>, pages: seq<PageResult<T>>, page: PageResult<T>)
    requires IsWalkOf(answer, pages) && pages[|pages| - 1].Page? && pages[|pages| - 1].next.Some?
    requires page == answer(pages[|pages| - 1].next)
    ensures IsWalkOf(answer, pages + [page])
  {
    var longer := pages + [page];
    forall k | 1 <= k < |longer| ensures Follows(answer, longer, k) {
      assert k < |pages| ==> Follows(answer, pages, k);
    }
  }

  lemma WalkEndsInPage<T(!new)>(list: Listing<T>, pages: seq<PageResult<T>>)
    requires list.codec.Lawful() && list.limit >= 1 && IsWalk(list, pages)
    ensures pages[|pages| - 1].Page?
  {
    var begins := WalkHasTrace(list, pages);
    assert PageFrom(list, pages[|pages| - 1], begins[|pages| - 1]);
  }

  /**
   A client that follows the cursors: with fresh boundaries it comes to an end, after
   ceil(n / limit) pages, and has seen every item once and in order.
   */
  method FollowCursors<T(!new)>(list: Listing<T>) returns (pages: seq<PageResult<T>>)
    requires list.codec.Lawful() && list.limit >= 1 && BoundariesFresh(list)
    ensures IsCompleteWalk(list, pages)
    ensures Visited(pages) == list.items
    ensures |pages| == if list.items == [] then 1 else CeilDiv(|list.items|, list.limit)
  {
    var page := PaginateItems(list, None);
    pages := [page];
    assert IsWalk(list, pages);
    WalkEndsInPage(list, pages);
    WalkBounded(list, pages);
    while page.next.Some?
      invariant IsWalk(list, pages) && pages[|pages| - 1] == page && page.Page?
      invariant |pages| <= |list.items| + 1
      decreases |list.items| + 1 - |pages|
    {
      var follower := PaginateItems(list, page.next);
      ExtendWalk(list, pages, follower);
      page := follower;
      pages := pages + [page];
      WalkEndsInPage(list, pages);
      WalkBounded(list, pages);
    }
    WalkVisitsAll(list, pages);
  }

  // ---------------------------------------------------------------------------
  // Repeated ids
  // ---------------------------------------------------------------------------

  lemma {:induction false} RestIsLong<T>(pages: seq<PageResult<T>>, begins: seq<nat>, limit: int, n: nat, k: nat, back: nat)
    requires |begins| == |pages| && k < |pages| && back < |pages| - 1 && begins[back + 1] < begins[back] + limit
    requires forall j :: 0 <= j < |pages| ==> pages[j].Page?
    requires forall j :: 0 <= j < |pages| - 1 ==> |pages[j].items| == limit && begins[j + 1] <= begins[j] + limit
    requires |pages[|pages| - 1].items| == n - begins[|pages| - 1]
    ensures |Visited(pages[k..])| >= n - begins[k] + if k <= back then 1 else 0
    decreases |pages| - k
  {
    VisitedFrom(pages, k);
    if k < |pages| - 1 {
      RestIsLong(pages, begins, limit, n, k + 1, back);
    }
  }

  lemma TraceLengths<T>(list: Listing<T>, pages: seq<PageResult<T>>, begins: seq<nat>)
    requires Trace(list, pages, begins) && EndsWalk(pages)
    ensures forall j :: 0 <= j < |pages| ==> pages[j].Page?
    ensures forall j :: 0 <= j < |pages| - 1 ==> |pages[j].items| == list.limit && begins[j + 1] <= begins[j] + list.limit
    ensures |pages[|pages| - 1].items| == |list.items| - begins[|pages| - 1]
  {
    forall j | 0 <= j < |pages| - 1 ensures |pages[j].items| == list.limit && begins[j + 1] <= begins[j] + list.limit {
      assert PageFrom(list, pages[j], begins[j]) && JumpsAt(list, begins, j);
    }
    assert PageFrom(list, pages[|pages| - 1], begins[|pages| - 1]);
  }

  lemma {:induction false} FirstStale<T>(list: Listing<T>, k: nat) returns (first: nat)
    requires list.limit >= 1 && !FreshBoundary(list, k)
    ensures first <= k && !FreshBoundary(list, first) && forall j :: 0 <= j < first ==> FreshBoundary(list, j)
  {
    if j: nat :| j < k && !FreshBoundary(list, j) {
      first := FirstStale(list, j);
    } else {
      first := k;
    }
  }

  lemma {:induction false} WalkPasses<T>(list: Listing<T>, pages: seq<PageResult<T>>, begins: seq<nat>, k: nat)
    requires list.limit >= 1 && Trace(list, pages, begins) && EndsWalk(pages)
    requires (forall j :: 0 <= j < k ==> FreshBoundary(list, j)) && Offset(list.limit, k) + list.limit < |list.items|
    ensures k < |pages| - 1
  {
    if k > 0 {
      WalkPasses(list, pages, begins, k - 1);
    }
    BeginsAtOffsets(list, pages, begins, k);
    assert PageFrom(list, pages[k], begins[k]);
  }

  /** A stale boundary sends the walk back over items it has visited. */
  lemma StaleWalkRepeats<T>(list: Listing<T>, pages: seq<PageResult<T>>, begins: seq<nat>)
    requires list.limit >= 1 && Trace(list, pages, begins) && EndsWalk(pages) && !BoundariesFresh(list)
    ensures |Visited(pages)| > |list.items|
  {
    var k: nat :| !FreshBoundary(list, k);
    var first := FirstStale(list, k);
    WalkPasses(list, pages, begins, first);
    BeginsAtOffsets(list, pages, begins, first);
    assert JumpsAt(list, begins, first);
    TraceLengths(list, pages, begins);
    RestIsLong(pages, begins, list.limit, |list.items|, 0, first);
    assert pages[0..] == pages;
  }

  /** A walk that ends visits exactly the list if and only if no page ends at an id seen earlier. */
  lemma WalkIsExactIff<T(!new)>(list: Listing<T>, pages: seq<PageResult<T>>)
    requires list.codec.Lawful() && list.limit >= 1 && IsCompleteWalk(list, pages)
    ensures Visited(pages) == list.items <==> BoundariesFresh(list)
  {
    if BoundariesFresh(list) {
      WalkVisitsAll(list, pages);
    } else {
      var begins := WalkHasTrace(list, pages);
      StaleWalkRepeats(list, pages, begins);
    }
  }

  lemma UniqueIdsAreFresh<T>(list: Listing<T>)
    requires list.limit >= 1
    requires forall i, j :: 0 <= i < j < |list.items| ==> list.id(list.items[i]) != list.id(list.items[j])
    ensures BoundariesFresh(list)
  {
    forall k: nat ensures FreshBoundary(list, k) {
      var end := Offset(list.limit, k) + list.limit;
      if end < |list.items| {
        assert Fresh(list, end - 1);
      }
    }
  }

  /** Three items under one id, one per page: the second cursor leads back to its own page for ever. */
  lemma RepeatedIdsNeverEnd<T(!new)>(list: Listing<T>, pages: seq<PageResult<T>>, x: T)
    requires list.codec.Lawful() && list.limit == 1 && list.items == [x, x, x] && IsWalk(list, pages)
    ensures !IsCompleteWalk(list, pages)
  {
    var last := |pages| - 1;
    var begins := WalkHasTrace(list, pages);
    BeginsStuck(list, pages, begins, x, last);
    assert PageFrom(list, pages[last], begins[last]);
  }

  lemma {:induction false} BeginsStuck<T>(list: Listing<T>, pages: seq<PageResult<T>>, begins: seq<nat>, x: T, k: nat)
    requires list.limit == 1 && list.items == [x, x, x] && Trace(list, pages, begins) && k < |pages|
    ensures begins[k] <= 1
  {
    if k > 0 {
      BeginsStuck(list, pages, begins, x, k - 1);
      assert JumpsAt(list, begins, k - 1);
      assert list.items[0] == list.items[1];
    }
  }
}
