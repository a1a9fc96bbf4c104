/**
 `Pager::page` over a list that does not change, and whole walks of the cursors
 it hands out.

 The service's half of the contract is `HonestFetch`: for the filters it is
 asked about it has one list, sorted by a strict total order on keys, and it
 answers a query with the nearest rows strictly past the key, at most `limit`.
 */
module Pager {
  import opened Wrappers
  import opened Cursor

  const U32_MAX: nat := 0xFFFF_FFFF
  type U32 = n: nat | n <= U32_MAX

  type Item = string
  datatype Row = Row(item: Item, key: Key)

  datatype Config = Config(defaultPageSize: U32, maxPageSize: U32)

  datatype ListQuery = ListQuery(
    filters: Filters, pageSize: U32, direction: Direction, after: Option<Key>, limit: U32)

  datatype Request = Request(cursor: Option<string>, pageSize: U32, filters: Filters)

  datatype Page = Page(
    items: seq<Item>, next: Option<string>, previous: Option<string>, applied: Filters, appliedSize: U32)

  /** What a page is made from. */
  datatype Source = Source(filters: Filters, direction: Direction, after: Option<Key>)

  datatype PageError = InvalidCursor | CursorWithFilters | MintFailed(error: MintError) | FetchFailed(reason: string)

  /** What `page` needs of the cursor codec: a binding's `mint` and `open`, and the empty filters. */
  datatype Signer = Signer(
    mint: (Direction, Key, Filters) -> Result<string, MintError>,
    open: string -> Option<Opened>,
    defaults: Filters)

  function SignerOf(env: Env, binding: Binding): Signer {
    Signer(
      (direction, key, filters) => Mint(env, direction, key, filters, binding),
      cursor => Open(env, cursor, binding),
      env.defaultFilters)
  }

  type Fetch = ListQuery -> Result<seq<Row>, string>

  function EffectivePageSize(cfg: Config, requested: U32): U32 {
    var size := if requested == 0 then cfg.defaultPageSize else requested;
    if size <= cfg.maxPageSize then size else cfg.maxPageSize
  }

  /** The size asked for, or the default for none, under the configured maximum. */
  lemma EffectiveSizeIsCapped(cfg: Config, requested: U32)
    ensures EffectivePageSize(cfg, requested) <= cfg.maxPageSize
    ensures 1 <= requested <= cfg.maxPageSize ==> EffectivePageSize(cfg, requested) == requested
    ensures requested > cfg.maxPageSize ==> EffectivePageSize(cfg, requested) == cfg.maxPageSize
    ensures EffectivePageSize(cfg, 0) == EffectivePageSize(cfg, cfg.defaultPageSize) || cfg.defaultPageSize == 0
    ensures EffectivePageSize(cfg, 0) == 0 <==> cfg.defaultPageSize == 0 || cfg.maxPageSize == 0
  {
  }

  /** One row past the page, as far as 32 bits count. */
  function LimitFor(size: U32): U32 {
    if size < U32_MAX then size + 1 else U32_MAX
  }

  function Reversed<T>(s: seq<T>): (r: seq<T>)
    ensures |r| == |s| && forall i :: 0 <= i < |s| ==> r[i] == s[|s| - 1 - i]
  {
    if s == [] then [] else Reversed(s[1..]) + [s[0]]
  }

  function Truncated<T>(s: seq<T>, n: nat): seq<T> {
    if |s| <= n then s else s[..n]
  }

  function ItemsOf(rows: seq<Row>): (r: seq<Item>)
    ensures |r| == |rows|
  {
    seq(|rows|, i requires 0 <= i < |rows| => rows[i].item)
  }

  /** Where a request starts reading: its own filters on a first page, else what its cursor carries. */
  function Start(signer: Signer, req: Request): Result<Source, PageError> {
    if req.cursor.None? || req.cursor.value == "" then Ok(Source(req.filters, Forward, None))
    else if req.filters != signer.defaults then Err(CursorWithFilters)
    else
      match signer.open(req.cursor.value)
      case None => Err(InvalidCursor)
      case Some(held) => Ok(Source(held.filters, held.direction, Some(held.key)))
  }

  function MintAt(signer: Signer, direction: Direction, row: Option<Row>, wanted: bool, filters: Filters)
    : Result<Option<string>, PageError>
  {
    if row.None? || !wanted then Ok(None)
    else
      match signer.mint(direction, row.value.key, filters)
      case Ok(cursor) => Ok(Some(cursor))
      case Err(e) => Err(MintFailed(e))
  }

  /** The fetched rows as displayed. */
  function Displayed(fetched: seq<Row>, size: U32, direction: Direction): seq<Row> {
    if direction.Backward? then Reversed(Truncated(fetched, size)) else Truncated(fetched, size)
  }

  function PageOf(signer: Signer, rows: seq<Row>, hasPrevious: bool, hasNext: bool, filters: Filters, size: U32)
    : Result<Page, PageError>
  {
    var first := if rows == [] then None else Some(rows[0]);
    var last := if rows == [] then None else Some(rows[|rows| - 1]);
    match MintAt(signer, Backward, first, hasPrevious, filters)
    case Err(e) => Err(e)
    case Ok(previous) =>
      match MintAt(signer, Forward, last, hasNext, filters)
      case Err(e) => Err(e)
      case Ok(next) => Ok(Page(ItemsOf(rows), next, previous, filters, size))
  }

  /** The page made of the fetched rows. */
  function Cut(signer: Signer, fetched: seq<Row>, size: U32, direction: Direction, fromCursor: bool, filters: Filters)
    : Result<Page, PageError>
  {
    var hasMore := |fetched| > size;
    var hasPrevious := if direction.Forward? then fromCursor else hasMore;
    var hasNext := if direction.Forward? then hasMore else true;
    PageOf(signer, Displayed(fetched, size, direction), hasPrevious, hasNext, filters, size)
  }

  function Serve(signer: Signer, cfg: Config, req: Request, fetch: Fetch): Result<Page, PageError> {
    var size := EffectivePageSize(cfg, req.pageSize);
    match Start(signer, req)
    case Err(e) => Err(e)
    case Ok(Source(filters, direction, after)) =>
      match fetch(ListQuery(filters, size, direction, after, LimitFor(size)))
      case Err(reason) => Err(FetchFailed(reason))
      case Ok(fetched) => Cut(signer, fetched, size, direction, after.Some?, filters)
  }

  /** `page`, with the fetched rows truncated and reversed in place. */
  method ServePage(signer: Signer, cfg: Config, req: Request, fetch: Fetch)
    returns (result: Result<Page, PageError>)
    ensures result == Serve(signer, cfg, req, fetch)
  {
    var size := EffectivePageSize(cfg, req.pageSize);
    var start := Start(signer, req);
    if start.Err? {
      return Err(start.error);
    }
    var Source(filters, direction, after) := start.value;
    var fetched := fetch(ListQuery(filters, size, direction, after, LimitFor(size)));
    if fetched.Err? {
      return Err(FetchFailed(fetched.error));
    }
    var kept := fetched.value;
    var hasMore := |kept| > size;
    if |kept| > size {
      kept := kept[..size];
    }
    var page := new Row[|kept|](i requires 0 <= i < |kept| => kept[i]);
    assert page[..] == kept;
    if direction.Backward? {
      ReverseInPlace(page);
    }
    var rows := page[..];
    var (hasPrevious, hasNext) := if direction.Forward? then (after.Some?, hasMore) else (hasMore, true);
    var previous := MintAt(signer, Backward, if rows == [] then None else Some(rows[0]), hasPrevious, filters);
    if previous.Err? {
      return Err(previous.error);
    }
    var next := MintAt(signer, Forward, if rows == [] then None else Some(rows[|rows| - 1]), hasNext, filters);
    if next.Err? {
      return Err(next.error);
    }
    return Ok(Page(ItemsOf(rows), next.value, previous.value, filters, size));
  }

  /** A cursor comes alone and must open; an empty one is a first page. */
  lemma RefusedCursors(signer: Signer, cfg: Config, req: Request, fetch: Fetch)
    ensures var carried := req.cursor.Some? && req.cursor.value != "";
      && (Serve(signer, cfg, req, fetch) == Err(CursorWithFilters) <==> carried && req.filters != signer.defaults)
      && (Serve(signer, cfg, req, fetch) == Err(InvalidCursor) <==>
            carried && req.filters == signer.defaults && signer.open(req.cursor.value).None?)
      && (!carried ==> Serve(signer, cfg, req, fetch) == Serve(signer, cfg, req.(cursor := None), fetch))
  {
  }

  lemma CutReports(signer: Signer, fetched: seq<Row>, size: U32, direction: Direction, fromCursor: bool, filters: Filters)
    ensures var page := Cut(signer, fetched, size, direction, fromCursor, filters);
      if page.Ok? then
        && page.value.appliedSize == size && page.value.applied == filters
        && |page.value.items| == if |fetched| <= size then |fetched| else size
      else page.error.MintFailed?
  {
  }

  /**
   A page reports the size it was cut to, the requested one or else the default
   but never above the maximum, and the filters it was read with: the request's own
   on a first page, the cursor's behind one. The service is asked for one row more
   than that, and its failure is the page's.
   */
  lemma PageReportsWhatWasApplied(signer: Signer, cfg: Config, req: Request, fetch: Fetch, size: U32, source: Source)
    requires size == var wished := if req.pageSize == 0 then cfg.defaultPageSize else req.pageSize;
                     if wished <= cfg.maxPageSize then wished else cfg.maxPageSize
    requires if req.cursor.None? || req.cursor.value == "" then source == Source(req.filters, Forward, None)
             else
               && req.filters == signer.defaults && signer.open(req.cursor.value).Some?
               && var held := signer.open(req.cursor.value).value;
                  source == Source(held.filters, held.direction, Some(held.key))
    ensures var page := Serve(signer, cfg, req, fetch);
            var asked := ListQuery(source.filters, size, source.direction, source.after,
                                   if size == 0xFFFF_FFFF then size else size + 1);
      if fetch(asked).Err? then page == Err(FetchFailed(fetch(asked).error))
      else if page.Ok? then
        && page.value.appliedSize == size && page.value.applied == source.filters
        && |page.value.items| == if |fetch(asked).value| <= size then |fetch(asked).value| else size
      else page.error.MintFailed?
  {
    assert Start(signer, req) == Ok(source);
    var fetched := fetch(ListQuery(source.filters, size, source.direction, source.after, LimitFor(size)));
    if fetched.Ok? {
      CutReports(signer, fetched.value, size, source.direction, source.after.Some?, source.filters);
    }
  }

  method ReverseInPlace(rows: array<Row>)
    modifies rows
    ensures rows[..] == Reversed(old(rows[..]))
  {
    var n := rows.Length;
    ghost var was := rows[..];
    for i := 0 to n / 2
      invariant forall k :: 0 <= k < i ==> rows[k] == was[n - 1 - k]
      invariant forall k :: i <= k < n - i ==> rows[k] == was[k]
      invariant forall k :: n - i <= k < n ==> rows[k] == was[n - 1 - k]
    {
      rows[i], rows[n - 1 - i] := rows[n - 1 - i], rows[i];
    }
    forall k | 0 <= k < n ensures rows[k] == was[n - 1 - k] {
      assert n / 2 <= k < n - n / 2 ==> n - 1 - k == k;
    }
    AllSwapped(was, rows[..]);
  }

  lemma AllSwapped(was: seq<Row>, now: seq<Row>)
    requires |now| == |was| && forall k :: 0 <= k < |was| ==> now[k] == was[|was| - 1 - k]
    ensures now == Reversed(was)
  {
    var back := Reversed(was);
    forall k | 0 <= k < |was| ensures now[k] == back[k] {}
  }

  // ------------------------------------------------------------------------
  // The service's side
  // ------------------------------------------------------------------------

  type Order = (Key, Key) -> bool

  ghost predicate StrictTotal(less: Order) {
    && (forall a :: !less(a, a))
    && (forall a, b, c :: less(a, b) && less(b, c) ==> less(a, c))
    && (forall a, b :: a != b ==> less(a, b) || less(b, a))
  }

  ghost predicate Sorted(list: seq<Row>, less: Order) {
    forall i, j :: 0 <= i < j < |list| ==> less(list[i].key, list[j].key)
  }

  function After(list: seq<Row>, key: Key, less: Order): seq<Row> {
    if list == [] then []
    else (if less(key, list[0].key) then [list[0]] else []) + After(list[1..], key, less)
  }

  function Before(list: seq<Row>, key: Key, less: Order): seq<Row> {
    if list == [] then []
    else (if less(list[0].key, key) then [list[0]] else []) + Before(list[1..], key, less)
  }

  /** The rows a contract-honouring fetch returns. */
  function Answer(list: seq<Row>, less: Order, q: ListQuery): seq<Row> {
    var rows :=
      if q.direction.Forward? then if q.after.None? then list else After(list, q.after.value, less)
      else Reversed(if q.after.None? then list else Before(list, q.after.value, less));
    Truncated(rows, q.limit)
  }

  ghost predicate HonestFetch(fetch: Fetch, filters: Filters, list: seq<Row>, less: Order) {
    forall q: ListQuery :: q.filters == filters ==> fetch(q) == Ok(Answer(list, less, q))
  }

  lemma {:induction false} AfterIsSuffix(list: seq<Row>, i: nat, less: Order)
    requires StrictTotal(less) && Sorted(list, less) && i < |list|
    ensures After(list, list[i].key, less) == list[i + 1..]
  {
    var key := list[i].key;
    if i == 0 {
      AllAfter(list[1..], key, less);
    } else {
      assert less(list[0].key, key);
      AfterIsSuffix(list[1..], i - 1, less);
      assert list[1..][i..] == list[i + 1..];
    }
  }

  lemma {:induction false} AllAfter(list: seq<Row>, key: Key, less: Order)
    requires forall j :: 0 <= j < |list| ==> less(key, list[j].key)
    ensures After(list, key, less) == list
  {
    if list != [] {
      AllAfter(list[1..], key, less);
    }
  }

  lemma {:induction false} BeforeIsPrefix(list: seq<Row>, i: nat, less: Order)
    requires StrictTotal(less) && Sorted(list, less) && i < |list|
    ensures Before(list, list[i].key, less) == list[..i]
  {
    var key := list[i].key;
    if i == 0 {
      NoneBefore(list, key, less);
    } else {
      assert less(list[0].key, key);
      BeforeIsPrefix(list[1..], i - 1, less);
      assert [list[0]] + list[1..][..i - 1] == list[..i];
    }
  }

  lemma {:induction false} NoneBefore(list: seq<Row>, key: Key, less: Order)
    requires StrictTotal(less) && forall j :: 0 <= j < |list| ==> key == list[j].key || less(key, list[j].key)
    ensures Before(list, key, less) == []
  {
    if list != [] {
      NoneBefore(list[1..], key, less);
    }
  }

  /** The contract by row number: what the nearest rows past the i-th row are. */
  ghost predicate AnswersByRow(fetch: Fetch, filters: Filters, list: seq<Row>) {
    && (forall size: U32, limit: U32 :: fetch(ListQuery(filters, size, Forward, None, limit)) == Ok(Truncated(list, limit)))
    && (forall size: U32, limit: U32, i
          {:trigger fetch(ListQuery(filters, size, Forward, Some(list[i].key), limit))} | 0 <= i < |list| ::
          fetch(ListQuery(filters, size, Forward, Some(list[i].key), limit)) == Ok(Truncated(list[i + 1..], limit)))
    && (forall size: U32, limit: U32, i
          {:trigger fetch(ListQuery(filters, size, Backward, Some(list[i].key), limit))} | 0 <= i < |list| ::
          fetch(ListQuery(filters, size, Backward, Some(list[i].key), limit)) == Ok(Truncated(Reversed(list[..i]), limit)))
  }

  lemma HonestAnswersByRow(fetch: Fetch, filters: Filters, list: seq<Row>, less: Order)
    requires HonestFetch(fetch, filters, list, less) && StrictTotal(less) && Sorted(list, less)
    ensures AnswersByRow(fetch, filters, list)
  {
    forall size: U32, limit: U32, i | 0 <= i < |list|
      ensures fetch(ListQuery(filters, size, Forward, Some(list[i].key), limit)) == Ok(Truncated(list[i + 1..], limit))
    {
      AfterIsSuffix(list, i, less);
    }
    forall size: U32, limit: U32, i | 0 <= i < |list|
      ensures fetch(ListQuery(filters, size, Backward, Some(list[i].key), limit)) == Ok(Truncated(Reversed(list[..i]), limit))
    {
      BeforeIsPrefix(list, i, less);
    }
  }

  // ------------------------------------------------------------------------
  // One page
  // ------------------------------------------------------------------------

  /** Every row's key can be minted in either direction and its cursor opened again. */
  ghost predicate Reopens(signer: Signer, list: seq<Row>, filters: Filters) {
    forall i, d :: 0 <= i < |list| ==> RowReopens(signer, list[i], d, filters)
  }

  predicate RowReopens(signer: Signer, row: Row, direction: Direction, filters: Filters) {
    var minted := signer.mint(direction, row.key, filters);
    minted.Ok? && minted.value != "" && signer.open(minted.value) == Some(Opened(filters, direction, row.key))
  }

  predicate KeyFits(env: Env, key: Key, filters: Filters) {
    env.keyToJson(key).Some? && |env.keyToJson(key).value| <= 0xFFFF && MintedSize(env, key, filters) <= 3072
  }

  /** A real binding's cursors reopen when every key fits under the cursor cap. */
  lemma FittingKeysReopen(env: Env, binding: Binding, list: seq<Row>, filters: Filters)
    requires Lawful(env) && forall i :: 0 <= i < |list| ==> KeyFits(env, list[i].key, filters)
    ensures Reopens(SignerOf(env, binding), list, filters)
  {
    forall i, d | 0 <= i < |list| ensures RowReopens(SignerOf(env, binding), list[i], d, filters) {
      OpenInvertsMintUpToTheCap(env, d, list[i].key, filters, binding);
    }
  }

  /** A list as its client can see it: the items, and the cursor leaving each row in either direction. */
  datatype Listing = Listing(items: seq<Item>, onward: seq<string>, back: seq<string>, filters: Filters)

  predicate WellFormed(l: Listing) {
    |l.items| == |l.onward| == |l.back|
  }

  ghost predicate Lists(signer: Signer, l: Listing, list: seq<Row>) {
    && WellFormed(l) && |l.items| == |list|
    && Reopens(signer, list, l.filters)
    && (forall i :: 0 <= i < |list| ==> l.items[i] == list[i].item)
    && (forall i :: 0 <= i < |list| ==> Ok(l.onward[i]) == signer.mint(Forward, list[i].key, l.filters))
    && (forall i :: 0 <= i < |list| ==> Ok(l.back[i]) == signer.mint(Backward, list[i].key, l.filters))
  }

  function ListingOf(signer: Signer, list: seq<Row>, filters: Filters): (l: Listing)
    requires Reopens(signer, list, filters)
    ensures l.filters == filters && Lists(signer, l, list)
  {
    assert forall i :: 0 <= i < |list| ==> RowReopens(signer, list[i], Forward, filters);
    assert forall i :: 0 <= i < |list| ==> RowReopens(signer, list[i], Backward, filters);
    Listing(
      ItemsOf(list),
      seq(|list|, i requires 0 <= i < |list| => signer.mint(Forward, list[i].key, filters).value),
      seq(|list|, i requires 0 <= i < |list| => signer.mint(Backward, list[i].key, filters).value),
      filters)
  }

  /** The page shows rows `a..b` of the list, and each cursor is there exactly when rows lie beyond that end. */
  predicate Shows(l: Listing, page: Page, a: nat, b: nat)
    requires WellFormed(l)
  {
    && a <= b <= |l.items| && (l.items == [] || a < b)
    && page.items == l.items[a..b]
    && page.previous == (if a > 0 then Some(l.back[a]) else None)
    && page.next == (if b < |l.items| then Some(l.onward[b - 1]) else None)
    && page.applied == l.filters
  }

  predicate PageShows(l: Listing, r: Result<Page, PageError>, a: nat, b: nat)
    requires WellFormed(l)
  {
    r.Ok? && Shows(l, r.value, a, b)
  }

  function Min(a: nat, b: nat): nat {
    if a <= b then a else b
  }

  function Minus(a: nat, b: nat): nat {
    if a <= b then 0 else a - b
  }

  lemma RowsShow(l: Listing, signer: Signer, list: seq<Row>, a: nat, b: nat, size: U32)
    requires Lists(signer, l, list) && a < b <= |list|
    ensures PageShows(l, PageOf(signer, list[a..b], a > 0, b < |list|, l.filters, size), a, b)
  {
  }

  /** The 32-bit count tells whether rows lie beyond a page: the page ends them, or one more can be asked for. */
  predicate FitsSize(size: U32, rows: nat) {
    rows <= size || 1 <= size < U32_MAX
  }

  lemma CutForward(l: Listing, signer: Signer, list: seq<Row>, a: nat, size: U32)
    requires Lists(signer, l, list) && (a < |list| || (a == 0 && list == []))
    ensures PageShows(l, Cut(signer, Truncated(list[a..], LimitFor(size)), size, Forward, a > 0, l.filters),
                      a, Min(a + size, |list|))
            <==> FitsSize(size, |list| - a)
  {
    if !FitsSize(size, |list| - a) {
      UncountedCutShowsNothingBeyond(signer, list[a..], size, Forward, a > 0, l.filters);
    } else if list != [] {
      CutForwardThatFits(l, signer, list, a, size);
    }
  }

  lemma CutForwardThatFits(l: Listing, signer: Signer, list: seq<Row>, a: nat, size: U32)
    requires Lists(signer, l, list) && a < |list| && FitsSize(size, |list| - a)
    ensures PageShows(l, Cut(signer, Truncated(list[a..], LimitFor(size)), size, Forward, a > 0, l.filters),
                      a, Min(a + size, |list|))
  {
    CutForwardIs(signer, list, a, size, l.filters);
    RowsShow(l, signer, list, a, Min(a + size, |list|), size);
  }

  lemma CutForwardIs(signer: Signer, list: seq<Row>, a: nat, size: U32, filters: Filters)
    requires a <= |list| && FitsSize(size, |list| - a)
    ensures var b := Min(a + size, |list|);
      Cut(signer, Truncated(list[a..], LimitFor(size)), size, Forward, a > 0, filters)
      == PageOf(signer, list[a..b], a > 0, b < |list|, filters, size)
  {
    assert Displayed(Truncated(list[a..], LimitFor(size)), size, Forward) == list[a..Min(a + size, |list|)];
  }

  lemma CutBackwardIs(signer: Signer, list: seq<Row>, b: nat, size: U32, filters: Filters)
    requires b < |list| && FitsSize(size, b)
    ensures var a := Minus(b, size);
      Cut(signer, Truncated(Reversed(list[..b]), LimitFor(size)), size, Backward, true, filters)
      == PageOf(signer, list[a..b], a > 0, true, filters, size)
  {
    NearestFirstReversed(list, b, size, LimitFor(size));
  }

  lemma NearestFirstReversed(list: seq<Row>, b: nat, size: nat, limit: nat)
    requires b <= |list| && size <= limit
    ensures Reversed(Truncated(Truncated(Reversed(list[..b]), limit), size)) == list[Minus(b, size)..b]
  {
    var near := Reversed(list[..b]);
    var cut := Truncated(Truncated(near, limit), size);
    assert |cut| == b - Minus(b, size);
    forall i | 0 <= i < |cut| ensures cut[i] == list[b - 1 - i] {
      assert cut[i] == near[i];
    }
  }

  lemma CutBackward(l: Listing, signer: Signer, list: seq<Row>, b: nat, size: U32)
    requires Lists(signer, l, list) && 0 < b < |list|
    ensures PageShows(l, Cut(signer, Truncated(Reversed(list[..b]), LimitFor(size)), size, Backward, true, l.filters),
                      Minus(b, size), b)
            <==> FitsSize(size, b)
  {
    if FitsSize(size, b) {
      CutBackwardIs(signer, list, b, size, l.filters);
      RowsShow(l, signer, list, Minus(b, size), b, size);
    } else {
      UncountedCutShowsNothingBeyond(signer, Reversed(list[..b]), size, Backward, true, l.filters);
    }
  }

  /** Where it does not: the page is cut as if no row lay beyond it. */
  lemma UncountedCutShowsNothingBeyond(
    signer: Signer, rows: seq<Row>, size: U32, direction: Direction, fromCursor: bool, filters: Filters)
    requires !FitsSize(size, |rows|)
    ensures var page := Cut(signer, Truncated(rows, LimitFor(size)), size, direction, fromCursor, filters);
      page.Ok? ==>
        && (size == 0 ==> page.value.items == [] && page.value.next.None? && page.value.previous.None?)
        && (size == U32_MAX && direction.Forward? ==> page.value.next.None?)
        && (size == U32_MAX && direction.Backward? ==> page.value.previous.None?)
  {
  }

  // ------------------------------------------------------------------------
  // One request
  // ------------------------------------------------------------------------

  /** The size a request asks for fits the rows on the side it reads. */
  predicate Fits(cfg: Config, requested: U32, rows: nat) {
    FitsSize(EffectivePageSize(cfg, requested), rows)
  }

  lemma ServeIsCut(signer: Signer, cfg: Config, req: Request, fetch: Fetch, source: Source, fetched: seq<Row>)
    requires Start(signer, req) == Ok(source)
    requires var size := EffectivePageSize(cfg, req.pageSize);
      fetch(ListQuery(source.filters, size, source.direction, source.after, LimitFor(size))) == Ok(fetched)
    ensures Serve(signer, cfg, req, fetch)
         == Cut(signer, fetched, EffectivePageSize(cfg, req.pageSize), source.direction, source.after.Some?, source.filters)
  {
  }

  /** The first page shows the first rows and the cursors they call for, exactly when its size fits the list. */
  lemma FirstPage(l: Listing, signer: Signer, cfg: Config, fetch: Fetch, list: seq<Row>, size: U32)
    requires Lists(signer, l, list) && AnswersByRow(fetch, l.filters, list)
    ensures PageShows(l, Serve(signer, cfg, Request(None, size, l.filters), fetch),
                      0, Min(EffectivePageSize(cfg, size), |list|))
            <==> Fits(cfg, size, |list|)
  {
    var s := EffectivePageSize(cfg, size);
    assert list[0..] == list;
    ServeIsCut(signer, cfg, Request(None, size, l.filters), fetch,
               Source(l.filters, Forward, None), Truncated(list, LimitFor(s)));
    CutForward(l, signer, list, 0, s);
  }

  /** The page behind row `i`: the rows after it, exactly when the size fits them. */
  lemma NextPage(l: Listing, signer: Signer, cfg: Config, fetch: Fetch, list: seq<Row>, i: nat, size: U32)
    requires Lists(signer, l, list) && AnswersByRow(fetch, l.filters, list) && i + 1 < |list|
    ensures PageShows(l, Serve(signer, cfg, Request(Some(l.onward[i]), size, signer.defaults), fetch),
                      i + 1, Min(i + 1 + EffectivePageSize(cfg, size), |list|))
            <==> Fits(cfg, size, |list| - (i + 1))
  {
    var s := EffectivePageSize(cfg, size);
    assert RowReopens(signer, list[i], Forward, l.filters);
    ServeIsCut(signer, cfg, Request(Some(l.onward[i]), size, signer.defaults), fetch,
               Source(l.filters, Forward, Some(list[i].key)), Truncated(list[i + 1..], LimitFor(s)));
    CutForward(l, signer, list, i + 1, s);
  }

  /** The page before row `i`: the nearest rows before it, exactly when the size fits them. */
  lemma PreviousPage(l: Listing, signer: Signer, cfg: Config, fetch: Fetch, list: seq<Row>, i: nat, size: U32)
    requires Lists(signer, l, list) && AnswersByRow(fetch, l.filters, list) && 0 < i < |list|
    ensures PageShows(l, Serve(signer, cfg, Request(Some(l.back[i]), size, signer.defaults), fetch),
                      Minus(i, EffectivePageSize(cfg, size)), i)
            <==> Fits(cfg, size, i)
  {
    var s := EffectivePageSize(cfg, size);
    assert RowReopens(signer, list[i], Backward, l.filters);
    ServeIsCut(signer, cfg, Request(Some(l.back[i]), size, signer.defaults), fetch,
               Source(l.filters, Backward, Some(list[i].key)), Truncated(Reversed(list[..i]), LimitFor(s)));
    CutBackward(l, signer, list, i, s);
  }

  /** A first page offers a next cursor exactly when the list is longer than the page, if and only if its size fits. */
  lemma NextCursorNeedsACountableSize(l: Listing, signer: Signer, cfg: Config, fetch: Fetch, list: seq<Row>, size: U32)
    requires Lists(signer, l, list) && AnswersByRow(fetch, l.filters, list)
    ensures var s := EffectivePageSize(cfg, size);
      var page := Serve(signer, cfg, Request(None, size, l.filters), fetch);
      && page.Ok?
      && ((page.value.next.Some? <==> |list| > s) <==> (1 <= s < U32_MAX || |list| <= s))
  {
  }

  /** An effective size of zero in the middle of a walk is a dead end: no rows and no cursor, whichever way it turns. */
  lemma ZeroSizeIsADeadEnd(l: Listing, signer: Signer, cfg: Config, fetch: Fetch, list: seq<Row>, i: nat, size: U32)
    requires Lists(signer, l, list) && AnswersByRow(fetch, l.filters, list) && i < |list|
    requires EffectivePageSize(cfg, size) == 0
    ensures Serve(signer, cfg, Request(Some(l.onward[i]), size, signer.defaults), fetch)
         == Serve(signer, cfg, Request(Some(l.back[i]), size, signer.defaults), fetch)
         == Ok(Page([], None, None, l.filters, 0))
  {
    assert RowReopens(signer, list[i], Forward, l.filters) && RowReopens(signer, list[i], Backward, l.filters);
    ServeIsCut(signer, cfg, Request(Some(l.onward[i]), size, signer.defaults), fetch,
               Source(l.filters, Forward, Some(list[i].key)), Truncated(list[i + 1..], 1));
    ServeIsCut(signer, cfg, Request(Some(l.back[i]), size, signer.defaults), fetch,
               Source(l.filters, Backward, Some(list[i].key)), Truncated(Reversed(list[..i]), 1));
  }

  // ------------------------------------------------------------------------
  // Whole walks
  // ------------------------------------------------------------------------

  /** The route as its client sees it. */
  type Server = Request -> Result<Page, PageError>

  /** One press of "next" or "previous", asking for a page size. */
  datatype Turn = Turn(forward: bool, pageSize: U32)

  function CursorFor(page: Page, turn: Turn): Option<string> {
    if turn.forward then page.next else page.previous
  }

  /** Follow the turns from `page`; absent when a cursor is missing or refused. */
  function Walk(server: Server, defaults: Filters, page: Page, turns: seq<Turn>): Option<Page>
    decreases |turns|
  {
    if turns == [] then Some(page)
    else if CursorFor(page, turns[0]).None? then None
    else
      match server(Request(CursorFor(page, turns[0]), turns[0].pageSize, defaults))
      case Err(_) => None
      case Ok(after) => Walk(server, defaults, after, turns[1..])
  }

  datatype Span = Span(a: nat, b: nat)

  function SpanAfter(cfg: Config, n: nat, span: Span, turn: Turn): Span {
    var size := EffectivePageSize(cfg, turn.pageSize);
    if turn.forward then Span(span.b, Min(span.b + size, n)) else Span(Minus(span.a, size), span.a)
  }

  predicate CanTurn(n: nat, span: Span, turn: Turn) {
    if turn.forward then span.b < n else span.a > 0
  }

  /** The rows on the side a turn reads. */
  function RowsBeyond(n: nat, span: Span, turn: Turn): nat {
    if turn.forward then Minus(n, span.b) else span.a
  }

  /** The same walk over row numbers alone. */
  function SpanWalk(cfg: Config, n: nat, span: Span, turns: seq<Turn>): Option<Span>
    decreases |turns|
  {
    if turns == [] then Some(span)
    else
      if CanTurn(n, span, turns[0]) then
        SpanWalk(cfg, n, SpanAfter(cfg, n, span, turns[0]), turns[1..])
      else None
  }

  /** Every turn the walk can take asks for a size that fits the rows beyond. */
  predicate TurnsFit(cfg: Config, n: nat, span: Span, turns: seq<Turn>)
    decreases |turns|
  {
    turns != [] && CanTurn(n, span, turns[0]) ==>
      && Fits(cfg, turns[0].pageSize, RowsBeyond(n, span, turns[0]))
      && TurnsFit(cfg, n, SpanAfter(cfg, n, span, turns[0]), turns[1..])
  }

  /** The server answers the cursor leaving a row with the rows on that side of it, exactly for the sizes that fit. */
  ghost predicate Pages(l: Listing, cfg: Config, server: Server, defaults: Filters)
    requires WellFormed(l)
  {
    && (forall i, size: U32 {:trigger server(Request(Some(l.onward[i]), size, defaults))} | 0 <= i < |l.items| - 1 ::
          PageShows(l, server(Request(Some(l.onward[i]), size, defaults)),
                    i + 1, Min(i + 1 + EffectivePageSize(cfg, size), |l.items|))
          <==> Fits(cfg, size, |l.items| - (i + 1)))
    && (forall i, size: U32 {:trigger server(Request(Some(l.back[i]), size, defaults))} | 0 < i < |l.items| ::
          PageShows(l, server(Request(Some(l.back[i]), size, defaults)), Minus(i, EffectivePageSize(cfg, size)), i)
          <==> Fits(cfg, size, i))
  }

  lemma ServePages(l: Listing, signer: Signer, cfg: Config, fetch: Fetch, server: Server, list: seq<Row>)
    requires Lists(signer, l, list) && AnswersByRow(fetch, l.filters, list)
    requires forall req :: server(req) == Serve(signer, cfg, req, fetch)
    ensures Pages(l, cfg, server, signer.defaults)
  {
    forall i, size: U32 | 0 <= i < |l.items| - 1
      ensures PageShows(l, server(Request(Some(l.onward[i]), size, signer.defaults)),
                        i + 1, Min(i + 1 + EffectivePageSize(cfg, size), |l.items|))
              <==> Fits(cfg, size, |l.items| - (i + 1))
    {
      NextPage(l, signer, cfg, fetch, list, i, size);
    }
    forall i, size: U32 | 0 < i < |l.items|
      ensures PageShows(l, server(Request(Some(l.back[i]), size, signer.defaults)), Minus(i, EffectivePageSize(cfg, size)), i)
              <==> Fits(cfg, size, i)
    {
      PreviousPage(l, signer, cfg, fetch, list, i, size);
    }
  }

  lemma TurnShows(l: Listing, cfg: Config, server: Server, defaults: Filters, page: Page, span: Span, turn: Turn)
    requires WellFormed(l) && Pages(l, cfg, server, defaults)
    requires Shows(l, page, span.a, span.b)
    ensures CursorFor(page, turn).Some? <==> CanTurn(|l.items|, span, turn)
    ensures CursorFor(page, turn).Some? ==>
              var moved := SpanAfter(cfg, |l.items|, span, turn);
              PageShows(l, server(Request(CursorFor(page, turn), turn.pageSize, defaults)), moved.a, moved.b)
              <==> Fits(cfg, turn.pageSize, RowsBeyond(|l.items|, span, turn))
  {
  }

  /** Any walk, even one changing its page size, shows exactly the rows its turns count to, and offers no other turn. */
  lemma {:induction false} WalkShowsItsSpan(
    l: Listing, cfg: Config, server: Server, defaults: Filters, page: Page, span: Span, turns: seq<Turn>)
    requires WellFormed(l) && Pages(l, cfg, server, defaults) && TurnsFit(cfg, |l.items|, span, turns)
    requires Shows(l, page, span.a, span.b)
    ensures var shown, counted := Walk(server, defaults, page, turns), SpanWalk(cfg, |l.items|, span, turns);
      && (shown.Some? <==> counted.Some?)
      && (shown.Some? ==> Shows(l, shown.value, counted.value.a, counted.value.b))
    decreases |turns|
  {
    if turns != [] {
      TurnShows(l, cfg, server, defaults, page, span, turns[0]);
      if CanTurn(|l.items|, span, turns[0]) {
        var after := server(Request(CursorFor(page, turns[0]), turns[0].pageSize, defaults)).value;
        WalkShowsItsSpan(l, cfg, server, defaults, after, SpanAfter(cfg, |l.items|, span, turns[0]), turns[1..]);
      }
    }
  }

  /** Every page the walk comes to shows the rows its turns count to. */
  predicate ShowsAllTheWay(
    l: Listing, cfg: Config, server: Server, defaults: Filters, page: Page, span: Span, turns: seq<Turn>)
    requires WellFormed(l)
    decreases |turns|
  {
    turns != [] && CanTurn(|l.items|, span, turns[0]) ==>
      var answer, moved :=
        server(Request(CursorFor(page, turns[0]), turns[0].pageSize, defaults)), SpanAfter(cfg, |l.items|, span, turns[0]);
      PageShows(l, answer, moved.a, moved.b) && ShowsAllTheWay(l, cfg, server, defaults, answer.value, moved, turns[1..])
  }

  /** A walk is shown right all the way exactly when every turn's size fits the rows beyond it. */
  lemma {:induction false} WalksGoWrongAtAMisfit(
    l: Listing, cfg: Config, server: Server, defaults: Filters, page: Page, span: Span, turns: seq<Turn>)
    requires WellFormed(l) && Pages(l, cfg, server, defaults) && Shows(l, page, span.a, span.b)
    ensures ShowsAllTheWay(l, cfg, server, defaults, page, span, turns) <==> TurnsFit(cfg, |l.items|, span, turns)
    decreases |turns|
  {
    if turns != [] && CanTurn(|l.items|, span, turns[0]) {
      TurnShows(l, cfg, server, defaults, page, span, turns[0]);
      var answer := server(Request(CursorFor(page, turns[0]), turns[0].pageSize, defaults));
      var moved := SpanAfter(cfg, |l.items|, span, turns[0]);
      if PageShows(l, answer, moved.a, moved.b) {
        WalksGoWrongAtAMisfit(l, cfg, server, defaults, answer.value, moved, turns[1..]);
      }
    }
  }

  /** A server of one binding over a static sorted list. */
  ghost predicate IsServed(
    env: Env, cfg: Config, binding: Binding, fetch: Fetch, server: Server, list: seq<Row>, less: Order, filters: Filters)
  {
    && Lawful(env) && StrictTotal(less) && Sorted(list, less) && HonestFetch(fetch, filters, list, less)
    && forall req :: server(req) == Serve(SignerOf(env, binding), cfg, req, fetch)
  }

  /** And a route whose keys all fit under the cursor cap. */
  ghost predicate IsRoute(
    env: Env, cfg: Config, binding: Binding, fetch: Fetch, server: Server, list: seq<Row>, less: Order, filters: Filters)
  {
    && IsServed(env, cfg, binding, fetch, server, list, less, filters)
    && forall i :: 0 <= i < |list| ==> KeyFits(env, list[i].key, filters)
  }

  /** What a route is to its client: a listing it pages through, beginning with its first rows. */
  lemma RoutePages(
    env: Env, cfg: Config, binding: Binding, fetch: Fetch, server: Server, list: seq<Row>, less: Order,
    filters: Filters, firstSize: U32) returns (l: Listing)
    requires IsRoute(env, cfg, binding, fetch, server, list, less, filters)
    ensures WellFormed(l) && l.items == ItemsOf(list) && Pages(l, cfg, server, env.defaultFilters)
    ensures PageShows(l, server(Request(None, firstSize, filters)), 0, Min(EffectivePageSize(cfg, firstSize), |list|))
            <==> Fits(cfg, firstSize, |list|)
  {
    var signer := SignerOf(env, binding);
    FittingKeysReopen(env, binding, list, filters);
    HonestAnswersByRow(fetch, filters, list, less);
    l := ListingOf(signer, list, filters);
    assert l.items == ItemsOf(list);
    FirstPage(l, signer, cfg, fetch, list, firstSize);
    ServePages(l, signer, cfg, fetch, server, list);
  }

  /**
   A whole walk through a real route: cursors go out and come back as strings,
   the first page is asked for with the filters and every later one with its
   cursor alone. The walk can go on exactly while the counted rows can, and shows
   exactly those rows.
   */
  lemma AnyWalkOfARoute(
    env: Env, cfg: Config, binding: Binding, fetch: Fetch, server: Server, list: seq<Row>, less: Order,
    filters: Filters, firstSize: U32, turns: seq<Turn>) returns (l: Listing)
    requires IsRoute(env, cfg, binding, fetch, server, list, less, filters)
    requires Fits(cfg, firstSize, |list|)
    requires TurnsFit(cfg, |list|, Span(0, Min(EffectivePageSize(cfg, firstSize), |list|)), turns)
    ensures WellFormed(l) && l.items == ItemsOf(list)
    ensures var first := server(Request(None, firstSize, filters));
      var firstSpan := Span(0, Min(EffectivePageSize(cfg, firstSize), |list|));
      && first.Ok? && Shows(l, first.value, firstSpan.a, firstSpan.b)
      && var shown := Walk(server, env.defaultFilters, first.value, turns);
         var counted := SpanWalk(cfg, |list|, firstSpan, turns);
         && (shown.Some? <==> counted.Some?)
         && (shown.Some? ==> Shows(l, shown.value, counted.value.a, counted.value.b))
  {
    l := RoutePages(env, cfg, binding, fetch, server, list, less, filters, firstSize);
    var first := server(Request(None, firstSize, filters));
    WalkShowsItsSpan(l, cfg, server, env.defaultFilters, first.value,
                     Span(0, Min(EffectivePageSize(cfg, firstSize), |list|)), turns);
  }

  // ------------------------------------------------------------------------
  // One page size throughout
  // ------------------------------------------------------------------------

  function Chunk(n: nat, size: nat, i: nat): Span {
    Span(i * size, Min((i + 1) * size, n))
  }

  /** The walk over chunk numbers: forward while another chunk begins, backward down to the first. */
  function ChunkWalk(n: nat, size: nat, i: nat, turns: seq<Turn>): Option<nat>
    decreases |turns|
  {
    if turns == [] then Some(i)
    else if turns[0].forward then
      if (i + 1) * size < n then ChunkWalk(n, size, i + 1, turns[1..]) else None
    else
      if i > 0 then ChunkWalk(n, size, i - 1, turns[1..]) else None
  }

  /** Chunk numbers are nexts minus previouses. */
  function Net(turns: seq<Turn>): int {
    if turns == [] then 0 else (if turns[0].forward then 1 else -1) + Net(turns[1..])
  }

  lemma {:induction false} ChunkWalkIsNet(n: nat, size: nat, i: nat, turns: seq<Turn>)
    ensures ChunkWalk(n, size, i, turns).Some? ==> ChunkWalk(n, size, i, turns).value == i + Net(turns)
    decreases |turns|
  {
    if turns != [] {
      if turns[0].forward {
        ChunkWalkIsNet(n, size, i + 1, turns[1..]);
      } else if i > 0 {
        ChunkWalkIsNet(n, size, i - 1, turns[1..]);
      }
    }
  }

  lemma NeighbourChunks(n: nat, size: nat, i: nat)
    requires size >= 1 && i * size < n
    ensures (i + 1) * size == i * size + size
    ensures Chunk(n, size, i).b < n <==> (i + 1) * size < n
    ensures (i + 1) * size < n ==> Chunk(n, size, i + 1) == Span(Chunk(n, size, i).b, Min(Chunk(n, size, i).b + size, n))
    ensures Chunk(n, size, i).a > 0 <==> i > 0
    ensures i > 0 ==> Chunk(n, size, i - 1) == Span(Minus(i * size, size), i * size) && (i - 1) * size < n
  {
  }

  lemma {:induction false} FixedSizeWalkIsChunks(cfg: Config, n: nat, size: nat, i: nat, turns: seq<Turn>)
    requires size >= 1 && (i * size < n || (i == 0 && n == 0))
    requires forall k :: 0 <= k < |turns| ==> EffectivePageSize(cfg, turns[k].pageSize) == size
    ensures SpanWalk(cfg, n, Chunk(n, size, i), turns)
         == match ChunkWalk(n, size, i, turns) case None => None case Some(j) => Some(Chunk(n, size, j))
    ensures ChunkWalk(n, size, i, turns).Some? ==>
              var j := ChunkWalk(n, size, i, turns).value; j * size < n || (j == 0 && n == 0)
    decreases |turns|
  {
    if turns != [] && n != 0 {
      assert EffectivePageSize(cfg, turns[0].pageSize) == size;
      NeighbourChunks(n, size, i);
      if turns[0].forward {
        if (i + 1) * size < n {
          FixedSizeWalkIsChunks(cfg, n, size, i + 1, turns[1..]);
        }
      } else if i > 0 {
        FixedSizeWalkIsChunks(cfg, n, size, i - 1, turns[1..]);
      }
    }
  }

  lemma {:induction false} FittingSizesFitEverywhere(cfg: Config, n: nat, span: Span, turns: seq<Turn>)
    requires span.a <= n && forall k :: 0 <= k < |turns| ==> Fits(cfg, turns[k].pageSize, n)
    ensures TurnsFit(cfg, n, span, turns)
    decreases |turns|
  {
    if turns != [] && CanTurn(n, span, turns[0]) {
      assert Fits(cfg, turns[0].pageSize, n);
      FittingSizesFitEverywhere(cfg, n, SpanAfter(cfg, n, span, turns[0]), turns[1..]);
    }
  }

  /** The page shows the `i`-th chunk of the items, a previous cursor iff i > 0 and a next one iff another chunk follows. */
  predicate ShowsChunk(page: Page, items: seq<Item>, size: nat, i: nat) {
    && i * size <= |items| && page.items == items[i * size..Min(i * size + size, |items|)]
    && (page.previous.Some? <==> i > 0)
    && (page.next.Some? <==> (i + 1) * size < |items|)
  }

  /**
   At one page size, any walk of a route's own cursors can go on exactly while
   another chunk lies that way, and after it the page shows chunk `i`, nexts
   minus previouses: exactly those rows, a previous cursor unless it is the first
   chunk and a next cursor unless it is the last.
   */
  lemma FixedSizeWalkOfARoute(
    env: Env, cfg: Config, binding: Binding, fetch: Fetch, server: Server, list: seq<Row>, less: Order,
    filters: Filters, size: U32, firstSize: U32, turns: seq<Turn>)
    requires IsRoute(env, cfg, binding, fetch, server, list, less, filters)
    requires size >= 1 && FitsSize(size, |list|) && EffectivePageSize(cfg, firstSize) == size
    requires forall k :: 0 <= k < |turns| ==> EffectivePageSize(cfg, turns[k].pageSize) == size
    ensures var first, n := server(Request(None, firstSize, filters)), |list|;
      && first.Ok?
      && var shown := Walk(server, env.defaultFilters, first.value, turns);
         && (shown.Some? <==> ChunkWalk(n, size, 0, turns).Some?)
         && (shown.Some? ==> 0 <= Net(turns) && ShowsChunk(shown.value, ItemsOf(list), size, Net(turns)))
  {
    var l := RoutePages(env, cfg, binding, fetch, server, list, less, filters, firstSize);
    FixedSizeWalk(l, cfg, server, env.defaultFilters, server(Request(None, firstSize, filters)).value, size, turns);
  }

  lemma FixedSizeWalk(
    l: Listing, cfg: Config, server: Server, defaults: Filters, page: Page, size: U32, turns: seq<Turn>)
    requires WellFormed(l) && Pages(l, cfg, server, defaults) && Shows(l, page, 0, Min(size, |l.items|))
    requires size >= 1 && FitsSize(size, |l.items|)
    requires forall k :: 0 <= k < |turns| ==> EffectivePageSize(cfg, turns[k].pageSize) == size
    ensures var shown := Walk(server, defaults, page, turns);
      && (shown.Some? <==> ChunkWalk(|l.items|, size, 0, turns).Some?)
      && (shown.Some? ==> 0 <= Net(turns) && ShowsChunk(shown.value, l.items, size, Net(turns)))
  {
    var n := |l.items|;
    forall k | 0 <= k < |turns| ensures Fits(cfg, turns[k].pageSize, n) {
      assert EffectivePageSize(cfg, turns[k].pageSize) == size;
    }
    assert Chunk(n, size, 0) == Span(0, Min(size, n));
    FittingSizesFitEverywhere(cfg, n, Chunk(n, size, 0), turns);
    WalkShowsItsSpan(l, cfg, server, defaults, page, Chunk(n, size, 0), turns);
    FixedSizeWalkIsChunks(cfg, n, size, 0, turns);
    ChunkWalkIsNet(n, size, 0, turns);
    var shown := Walk(server, defaults, page, turns);
    if shown.Some? {
      ShownChunk(l, shown.value, size, Net(turns));
    }
  }

  lemma ShownChunk(l: Listing, page: Page, size: nat, i: nat)
    requires WellFormed(l) && size >= 1 && (i * size < |l.items| || (i == 0 && l.items == []))
    requires Shows(l, page, Chunk(|l.items|, size, i).a, Chunk(|l.items|, size, i).b)
    ensures ShowsChunk(page, l.items, size, i)
  {
    if l.items != [] {
      NeighbourChunks(|l.items|, size, i);
    }
  }

  /** Read a page and every page after it, following `next` up to `fuel` times. */
  function ReadOn(server: Server, defaults: Filters, page: Page, size: U32, fuel: nat): seq<Item>
    decreases fuel
  {
    if fuel == 0 || page.next.None? then page.items
    else
      match server(Request(page.next, size, defaults))
      case Err(_) => page.items
      case Ok(after) => page.items + ReadOn(server, defaults, after, size, fuel - 1)
  }

  /** Following next alone shows every remaining row exactly once, in order, and stops by itself. */
  lemma {:induction false} NextVisitsEveryRowOnce(
    l: Listing, cfg: Config, server: Server, defaults: Filters, page: Page, span: Span, size: U32, fuel: nat)
    requires WellFormed(l) && Pages(l, cfg, server, defaults) && Fits(cfg, size, |l.items|)
    requires Shows(l, page, span.a, span.b) && fuel >= |l.items| - span.b
    ensures ReadOn(server, defaults, page, size, fuel) == l.items[span.a..]
    decreases fuel
  {
    if page.next.Some? {
      TurnShows(l, cfg, server, defaults, page, span, Turn(true, size));
      var after := server(Request(page.next, size, defaults)).value;
      var moved := SpanAfter(cfg, |l.items|, span, Turn(true, size));
      NextVisitsEveryRowOnce(l, cfg, server, defaults, after, moved, size, fuel - 1);
      assert l.items[span.a..span.b] + l.items[span.b..] == l.items[span.a..];
    }
  }

  /** Reading a route from its first page on yields the whole list, each row once and in order. */
  lemma ReadingOnYieldsTheList(
    env: Env, cfg: Config, binding: Binding, fetch: Fetch, server: Server, list: seq<Row>, less: Order,
    filters: Filters, firstSize: U32, size: U32, fuel: nat)
    requires IsRoute(env, cfg, binding, fetch, server, list, less, filters)
    requires Fits(cfg, firstSize, |list|) && Fits(cfg, size, |list|) && fuel >= |list|
    ensures var first := server(Request(None, firstSize, filters));
      first.Ok? && ReadOn(server, env.defaultFilters, first.value, size, fuel) == ItemsOf(list)
  {
    var l := RoutePages(env, cfg, binding, fetch, server, list, less, filters, firstSize);
    var first := server(Request(None, firstSize, filters));
    var span := Span(0, Min(EffectivePageSize(cfg, firstSize), |list|));
    NextVisitsEveryRowOnce(l, cfg, server, env.defaultFilters, first.value, span, size, fuel);
    assert l.items[0..] == l.items;
  }
}
