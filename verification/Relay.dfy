/** Cursor paging and global ids of fastql/relay.py. */
module Relay {
  import opened Ast
  import opened Codec

  // ----- cursors and global ids ------------------------------------------------------------

  const CURSOR_PREFIX := "cursor:"

  /** `offset_to_cursor`. */
  function OffsetToCursor(offset: int): string { ToBase64(CURSOR_PREFIX + Decimal(offset)) }

  /** `cursor_to_offset`; whatever stands in the prefix's place is cut off unseen. */
  function CursorToOffset(cursor: string): Option<int> {
    var decoded :- FromBase64(cursor);
    ParseInt(if |decoded| < |CURSOR_PREFIX| then "" else decoded[|CURSOR_PREFIX|..])
  }

  lemma CursorRoundTrip(offset: int)
    ensures CursorToOffset(OffsetToCursor(offset)) == Some(offset)
  {
    var text := CURSOR_PREFIX + Decimal(offset);
    Base64RoundTrip(text);
    ParsesDecimal(offset);
    assert text[|CURSOR_PREFIX|..] == Decimal(offset);
  }

  /** A cursor is the base64 text of `cursor:` and the offset's decimal text. */
  lemma CursorText(offset: int)
    ensures FromBase64(OffsetToCursor(offset)) == Some("cursor:" + Decimal(offset))
  {
    Base64RoundTrip("cursor:" + Decimal(offset));
  }

  /** `to_global_id`. */
  function ToGlobalId(typeName: string, innerId: string): string { ToBase64(typeName + ":" + innerId) }

  function ColonAt(s: string): nat
    ensures ColonAt(s) <= |s|
  {
    if s == "" || s[0] == ':' then 0 else 1 + ColonAt(s[1..])
  }

  /** `from_global_id`: malformed ids give two empty strings. */
  function FromGlobalId(globalId: string): (string, string) {
    match FromBase64(globalId)
    case None => ("", "")
    case Some(decoded) =>
      var at := ColonAt(decoded);
      if at == |decoded| then ("", "") else (decoded[..at], decoded[at + 1..])
  }

  lemma {:induction false} ColonIsFirst(s: string)
    ensures ColonAt(s) < |s| ==> s[ColonAt(s)] == ':'
    ensures ':' !in s[..ColonAt(s)]
  {
    if s != "" && s[0] != ':' {
      ColonIsFirst(s[1..]);
      assert s[..ColonAt(s)] == [s[0]] + s[1..][..ColonAt(s[1..])];
    }
  }

  /** Global ids round-trip exactly for type names without a colon. */
  lemma GlobalIdRoundTrip(typeName: string, innerId: string)
    ensures FromGlobalId(ToGlobalId(typeName, innerId)) == (typeName, innerId) <==> ':' !in typeName
  {
    var text := typeName + ":" + innerId;
    Base64RoundTrip(text);
    ColonIsFirst(text);
    assert ':' !in FromGlobalId(ToGlobalId(typeName, innerId)).0;
    if ':' !in typeName {
      ColonAfter(typeName, innerId);
      assert text[..|typeName|] == typeName && text[|typeName| + 1..] == innerId;
    }
  }

  /** A global id is the base64 text of type name, colon and inner id; whatever is no such text is malformed. */
  lemma GlobalIdExactly(globalId: string, typeName: string, innerId: string)
    ensures FromBase64(ToGlobalId(typeName, innerId)) == Some(typeName + ":" + innerId)
    ensures ':' !in typeName && FromBase64(globalId) == Some(typeName + ":" + innerId) ==>
              FromGlobalId(globalId) == (typeName, innerId)
    ensures (FromBase64(globalId).None? || ':' !in FromBase64(globalId).value) ==> FromGlobalId(globalId) == ("", "")
  {
    var text := typeName + ":" + innerId;
    Base64RoundTrip(text);
    if ':' !in typeName {
      ColonAfter(typeName, innerId);
      assert text[..|typeName|] == typeName && text[|typeName| + 1..] == innerId;
    }
    if FromBase64(globalId).Some? { ColonIsFirst(FromBase64(globalId).value); }
  }

  lemma {:induction false} ColonAfter(typeName: string, innerId: string)
    requires ':' !in typeName
    ensures ColonAt(typeName + ":" + innerId) == |typeName|
  {
    if typeName != "" {
      assert (typeName + ":" + innerId)[1..] == typeName[1..] + ":" + innerId;
      ColonAfter(typeName[1..], innerId);
    }
  }

  // ----- one page -------------------------------------------------------------------------------

  datatype Edge<+T> = Edge(node: T, cursor: string)

  datatype PageInfo = PageInfo(hasPreviousPage: bool, hasNextPage: bool, startCursor: Option<string>,
      endCursor: Option<string>)

  datatype Page<+T> = Page(edges: seq<Edge<T>>, info: PageInfo)

  function Max(a: int, b: int): int { if a < b then b else a }

  function Min(a: int, b: int): int { if a < b then a else b }

  /** `_offset_with_default`, on a cursor that was given. */
  function Given(cursor: Option<string>, default: int): Option<int> {
    if cursor.None? then None
    else
      match CursorToOffset(cursor.value)
      case None => Some(default)
      case Some(offset) => Some(offset)
  }

  /** Strictly after the `after` cursor. */
  function WindowStart(after: Option<int>): (start: nat) { if after.Some? then Max(-1, after.value) + 1 else 0 }

  /** Strictly before the `before` cursor, within the data. */
  function WindowEnd(length: nat, before: Option<int>): (end: int)
    ensures end <= length
  {
    if before.Some? then Min(length, before.value) else length
  }

  /** The data the cursors leave. */
  function Window<T>(data: seq<T>, after: Option<int>, before: Option<int>): seq<T> {
    var start, end := WindowStart(after), WindowEnd(|data|, before);
    if start < end then data[start..end] else []
  }

  function Take<T>(n: Option<nat>, s: seq<T>): seq<T> { if n.Some? && n.value < |s| then s[..n.value] else s }

  function TakeLast<T>(n: Option<nat>, s: seq<T>): seq<T> { if n.Some? && n.value < |s| then s[|s| - n.value..] else s }

  function Nodes<T>(edges: seq<Edge<T>>): seq<T> { seq(|edges|, i requires 0 <= i < |edges| => edges[i].node) }

  /** Where the first ones of the window end, and where the last ones of those start. */
  function Cut(length: nat, first: Option<nat>, after: Option<int>, before: Option<int>): (cut: int)
    ensures cut <= length
  {
    var end := WindowEnd(length, before);
    if first.Some? then Min(end, WindowStart(after) + first.value) else end
  }

  function PageStart(length: nat, first: Option<nat>, after: Option<int>, last: Option<nat>,
      before: Option<int>): (start: nat)
  {
    if last.Some? then Max(WindowStart(after), Cut(length, first, after, before) - last.value) else WindowStart(after)
  }

  lemma FirstWithin<T>(data: seq<T>, first: Option<nat>, after: Option<int>, before: Option<int>)
    ensures var start, cut := WindowStart(after), Cut(|data|, first, after, before);
            Take(first, Window(data, after, before)) == if start < cut then data[start..cut] else []
  {
  }

  /** The page lies between its start and the cut. */
  lemma PageWithin<T>(data: seq<T>, first: Option<nat>, after: Option<int>, last: Option<nat>, before: Option<int>)
    ensures var start, cut := PageStart(|data|, first, after, last, before), Cut(|data|, first, after, before);
            TakeLast(last, Take(first, Window(data, after, before))) == if start < cut then data[start..cut] else []
  {
    FirstWithin(data, first, after, before);
  }

  /** What `hasNextPage` says: the page ends before the `before` cursor, or the end of the data. */
  predicate HasNext(length: nat, first: Option<nat>, after: Option<int>, last: Option<nat>, before: Option<int>) {
    && first.Some?
    && Max(PageStart(length, first, after, last, before), Cut(length, first, after, before))
       < if before.Some? then before.value else length
  }

  /** What `hasPreviousPage` says: the page starts after the one past the `after` cursor, or the first datum. */
  predicate HasPrevious(length: nat, first: Option<nat>, after: Option<int>, last: Option<nat>, before: Option<int>) {
    last.Some? && PageStart(length, first, after, last, before) > if after.Some? then after.value + 1 else 0
  }

  predicate IsPage<T(==)>(page: Page<T>, data: seq<T>, first: Option<nat>, after: Option<int>, last: Option<nat>,
      before: Option<int>)
  {
    && Nodes(page.edges) == TakeLast(last, Take(first, Window(data, after, before)))
    && (forall i | 0 <= i < |page.edges| ::
          page.edges[i].cursor
          == OffsetToCursor(PageStart(|data|, first, after, last, before) + i))
    && page.info.startCursor == (if page.edges == [] then None else Some(page.edges[0].cursor))
    && page.info.endCursor == (if page.edges == [] then None else Some(page.edges[|page.edges| - 1].cursor))
    && page.info.hasNextPage == HasNext(|data|, first, after, last, before)
    && page.info.hasPreviousPage == HasPrevious(|data|, first, after, last, before)
  }

  predicate Overshoots(length: nat, after: Option<int>, before: Option<int>) {
    before.Some? && before.value > Max(length, WindowStart(after))
  }

  /** Without `first` a page's `hasNextPage` is false. With it, it means that the window holds more than `first`,
      exactly when no `before` cursor overshoots a window that `first` does not cut. */
  lemma NextPageExact<T>(
    page: Page<T>, data: seq<T>, first: Option<nat>, after: Option<int>, last: Option<nat>, before: Option<int>)
    requires IsPage(page, data, first, after, last, before)
    ensures first.None? ==> !page.info.hasNextPage
    ensures first.Some? ==>
              ((page.info.hasNextPage <==> |Window(data, after, before)| > first.value)
               <==> !(Overshoots(|data|, after, before) && |Window(data, after, before)| <= first.value))
  {
    FirstWithin(data, first, after, before);
  }

  /** Without `last` a page's `hasPreviousPage` is false. With it, it means that there are more than `last` of the
      first ones, exactly when no `after` cursor lies before the data without `last` cutting anything off. */
  lemma PreviousPageExact<T>(
    page: Page<T>, data: seq<T>, first: Option<nat>, after: Option<int>, last: Option<nat>, before: Option<int>)
    requires IsPage(page, data, first, after, last, before)
    ensures last.None? ==> !page.info.hasPreviousPage
    ensures var kept := |Take(first, Window(data, after, before))|;
            last.Some? ==>
              ((page.info.hasPreviousPage <==> kept > last.value)
               <==> !(after.Some? && after.value < -1 && kept <= last.value))
  {
    FirstWithin(data, first, after, before);
  }

  /** The positions strictly between the cursors. */
  predicate Between(i: int, after: Option<int>, before: Option<int>) {
    (after.Some? ==> after.value < i) && (before.Some? ==> i < before.value)
  }

  /** The window is the data between the cursors: it starts at `from`, and holds a position exactly when that
      lies between them. */
  lemma WindowIsBetween<T>(data: seq<T>, after: Option<int>, before: Option<int>) returns (from: nat)
    ensures var window := Window(data, after, before);
            && from + |window| <= |data| && window == data[from..from + |window|]
            && forall i | 0 <= i < |data| :: from <= i < from + |window| <==> Between(i, after, before)
  {
    var start := WindowStart(after);
    from := if start < WindowEnd(|data|, before) then start else 0;
  }

  lemma BetweenAt(length: nat, first: Option<nat>, after: Option<int>, last: Option<nat>, before: Option<int>, at: int)
    requires PageStart(length, first, after, last, before) <= at < Cut(length, first, after, before)
    ensures at < length && Between(at, after, before)
  {
  }

  lemma PagePosition<T>(data: seq<T>, first: Option<nat>, after: Option<int>, last: Option<nat>, before: Option<int>,
      page: seq<T>, i: nat)
    requires page == TakeLast(last, Take(first, Window(data, after, before))) && i < |page|
    ensures var at := PageStart(|data|, first, after, last, before) + i;
            at < |data| && page[i] == data[at] && Between(at, after, before)
  {
    var start, cut := PageStart(|data|, first, after, last, before), Cut(|data|, first, after, before);
    PageWithin(data, first, after, last, before);
    assert start < cut && page == data[start..cut];
    BetweenAt(|data|, first, after, last, before, start + i);
  }

  predicate Leads(cursor: string, at: int) { CursorToOffset(cursor) == Some(at) }

  /** An edge's cursor leads to the position of its node, which lies between the cursors asked for; the next edge is
      that of the next position. */
  lemma EdgesStand<T>(page: Page<T>, data: seq<T>, first: Option<nat>, after: Option<int>, last: Option<nat>,
      before: Option<int>, i: nat) returns (at: nat)
    requires IsPage(page, data, first, after, last, before) && i < |page.edges|
    ensures at < |data| && Leads(page.edges[i].cursor, at) && page.edges[i].node == data[at]
    ensures Between(at, after, before)
    ensures i > 0 ==> Leads(page.edges[i - 1].cursor, at - 1)
  {
    at := PageStart(|data|, first, after, last, before) + i;
    assert page.edges[i].node == Nodes(page.edges)[i];
    PagePosition(data, first, after, last, before, Nodes(page.edges), i);
    CursorRoundTrip(at);
    if i > 0 { CursorRoundTrip(at - 1); }
  }

  /** A `before` cursor beyond the data announces a page that is not there. */
  lemma SpuriousNextPage(page: Page<int>)
    requires IsPage(page, [7], Some(1), None, None, Some(2))
    ensures page.info.hasNextPage && Nodes(page.edges) == [7]
  {
  }

  /** `connection_from_list`; nothing stands for the error raised on a negative `first` or `last`. */
  method ConnectionFromList<T(==)>(data: seq<T>, first: Option<int>, after: Option<string>, last: Option<int>,
      before: Option<string>)
    returns (page: Option<Page<T>>)
    ensures page.None? <==> (first.Some? && first.value < 0) || (last.Some? && last.value < 0)
    ensures page.Some? ==> IsPage(page.value, data, first, Given(after, -1), last, Given(before, |data|))
  {
    if first.Some? && first.value < 0 { return None; }
    if last.Some? && last.value < 0 { return None; }
    var slice := Slice(data, first, Given(after, -1), last, Given(before, |data|));
    page := Some(slice);
  }

  lemma FlagsMatch(length: nat, first: Option<nat>, after: Option<int>, last: Option<nat>, before: Option<int>,
      startOffset: nat, endOffset: nat)
    requires startOffset == PageStart(length, first, after, last, before)
    requires endOffset == Max(startOffset, Cut(length, first, after, before))
    ensures HasPrevious(length, first, after, last, before)
            <==> last.Some? && startOffset > if after.Some? then after.value + 1 else 0
    ensures HasNext(length, first, after, last, before)
            <==> first.Some? && endOffset < if before.Some? then before.value else length
  {
  }

  lemma RangeMatches<T>(data: seq<T>, first: Option<nat>, after: Option<int>, last: Option<nat>, before: Option<int>,
      startOffset: nat, endOffset: nat)
    requires startOffset == PageStart(|data|, first, after, last, before)
    requires endOffset == Max(startOffset, Cut(|data|, first, after, before))
    ensures startOffset < endOffset ==> endOffset <= |data|
    ensures TakeLast(last, Take(first, Window(data, after, before)))
            == if startOffset < endOffset then data[startOffset..endOffset] else []
  {
    PageWithin(data, first, after, last, before);
  }

  /** A page put together of a range of edges and the flags and cursors read off them. */
  function Assembled<T>(edges: seq<Edge<T>>, hasPrevious: bool, hasNext: bool): Page<T> {
    Page(edges, PageInfo(hasPrevious, hasNext, if edges == [] then None else Some(edges[0].cursor),
      if edges == [] then None else Some(edges[|edges| - 1].cursor)))
  }

  lemma AssembledIsPage<T>(data: seq<T>, first: Option<nat>, after: Option<int>, last: Option<nat>, before: Option<int>,
      edges: seq<Edge<T>>)
    requires Nodes(edges) == TakeLast(last, Take(first, Window(data, after, before)))
    requires forall i | 0 <= i < |edges| ::
               edges[i].cursor == OffsetToCursor(PageStart(|data|, first, after, last, before) + i)
    ensures IsPage(Assembled(edges, HasPrevious(|data|, first, after, last, before),
              HasNext(|data|, first, after, last, before)), data, first, after, last, before)
  {
  }

  method Slice<T(==)>(data: seq<T>, first: Option<nat>, after: Option<int>, last: Option<nat>, before: Option<int>)
    returns (page: Page<T>)
    ensures IsPage(page, data, first, after, last, before)
  {
    var startOffset, endOffset := Offsets(|data|, first, after, last, before);
    RangeMatches(data, first, after, last, before, startOffset, endOffset);
    var edges := Edges(data, startOffset, endOffset);
    var lowerBound := if after.Some? then after.value + 1 else 0;
    var upperBound := if before.Some? then before.value else |data|;
    var hasPrevious, hasNext := last.Some? && startOffset > lowerBound, first.Some? && endOffset < upperBound;
    FlagsMatch(|data|, first, after, last, before, startOffset, endOffset);
    AssembledIsPage(data, first, after, last, before, edges);
    var startCursor := if edges != [] then Some(edges[0].cursor) else None;
    var endCursor := if edges != [] then Some(edges[|edges| - 1].cursor) else None;
    page := Page(edges, PageInfo(hasPrevious, hasNext, startCursor, endCursor));
    assert page == Assembled(edges, hasPrevious, hasNext);
  }

  /** The offsets, narrowed step by step. */
  method Offsets(length: nat, first: Option<nat>, after: Option<int>, last: Option<nat>, before: Option<int>)
    returns (startOffset: nat, endOffset: nat)
    ensures startOffset == PageStart(length, first, after, last, before)
    ensures endOffset == Max(startOffset, Cut(length, first, after, before))
  {
    var beforeOffset := if before.Some? then before.value else length;
    var afterOffset := if after.Some? then after.value else -1;
    var start: int := Max(-1, afterOffset) + 1;
    var end: int := Min(length, beforeOffset);
    if first.Some? { end := Min(end, start + first.value); }
    if last.Some? { start := Max(start, end - last.value); }
    startOffset := Max(0, start);
    endOffset := Max(startOffset, Min(end, length));
  }

  /** An edge with its cursor for each position of a range. */
  method Edges<T>(data: seq<T>, start: nat, end: nat) returns (edges: seq<Edge<T>>)
    requires start <= end && (start < end ==> end <= |data|)
    ensures |edges| == end - start && Nodes(edges) == if start < end then data[start..end] else []
    ensures forall i | 0 <= i < |edges| :: edges[i].cursor == OffsetToCursor(start + i)
  {
    edges := [];
    for offset := start to end
      invariant |edges| == offset - start
      invariant forall i | 0 <= i < |edges| :: edges[i] == Edge(data[start + i], OffsetToCursor(start + i))
    {
      edges := edges + [Edge(data[offset], OffsetToCursor(offset))];
    }
  }

  // ----- paging -----------------------------------------------------------------------------------

  /** What the specification leaves after `done` items already read. */
  lemma RestAfter<T>(data: seq<T>, first: nat, after: Option<int>, done: nat)
    requires done <= |data| && WindowStart(after) == done
    ensures Take(Some(first), Window(data, after, None)) == data[done..Min(done + first, |data|)]
    ensures HasNext(|data|, Some(first), after, None, None) <==> done + first < |data|
  {
    FirstWithin(data, Some(first), after, None);
    assert |Window(data, after, None)| == |data| - done;
  }

  /** A page after `done` items already read: the next `first` ones, or all that are left. */
  lemma NextPage<T>(page: Page<T>, data: seq<T>, first: nat, after: Option<int>, done: nat)
    requires first >= 1 && done <= |data| && WindowStart(after) == done
             && IsPage(page, data, Some(first), after, None, None)
    ensures var next := Min(done + first, |data|);
            && Nodes(page.edges) == data[done..next]
            && page.info.hasNextPage == (next < |data|)
            && (page.info.hasNextPage ==> page.info.endCursor == Some(OffsetToCursor(next - 1)))
  {
    RestAfter(data, first, after, done);
    var next := Min(done + first, |data|);
    assert |page.edges| == |Nodes(page.edges)| == next - done;
    assert PageStart(|data|, Some(first), after, None, None) == done;
  }

  lemma WindowAfter(done: nat, cursor: Option<string>)
    requires cursor == Some(OffsetToCursor(done - 1))
    ensures WindowStart(Given(cursor, -1)) == done
  {
    CursorRoundTrip(done - 1);
  }

  /** A page read after `read`: the data goes on, and either all is read or the end cursor is that of the last. */
  lemma PageRead<T>(page: Page<T>, data: seq<T>, first: nat, after: Option<int>, read: seq<T>)
    requires first >= 1 && |read| <= |data| && read == data[..|read|] && WindowStart(after) == |read|
    requires IsPage(page, data, Some(first), after, None, None)
    ensures var all := read + Nodes(page.edges);
            && |all| <= |data| && all == data[..|all|]
            && if page.info.hasNextPage then
                 page.info.endCursor == Some(OffsetToCursor(|all| - 1)) && |read| < |all|
               else all == data
  {
    var next := Min(|read| + first, |data|);
    NextPage(page, data, first, after, |read|);
    ReadOn(data, |read|, next);
    var all := read + Nodes(page.edges);
    assert all == data[..next] && |all| == next;
  }

  lemma ReadOn<T>(data: seq<T>, done: nat, next: nat)
    requires done <= next <= |data|
    ensures data[..done] + data[done..next] == data[..next]
  {
  }

  /** Reading page after page forward by end cursor, while a next page is announced, ends and lists the
      data once, in order. */
  method PageForward<T(==)>(data: seq<T>, first: int) returns (read: seq<T>)
    requires first >= 1
    ensures read == data
  {
    read := [];
    var after: Option<string> := None;
    var more := true;
    while more
      invariant |read| <= |data| && read == data[..|read|]
      invariant if more then WindowStart(Given(after, -1)) == |read| else read == data
      decreases more, |data| - |read|
    {
      var page := ConnectionFromList(data, Some(first), after, None, None);
      PageRead(page.value, data, first, Given(after, -1), read);
      read := read + Nodes(page.value.edges);
      more := page.value.info.hasNextPage;
      if more {
        after := page.value.info.endCursor;
        WindowAfter(|read|, after);
      }
    }
  }
}
