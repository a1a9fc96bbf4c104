/**
 Walks over a list whose keys need not all fit into a cursor. A key that cannot be
 minted fails the page that needs it; one that mints too long a cursor leaves a
 page whose cursor no longer opens.
 */
module PagerKeys {
  import opened Cursor
  import opened Pager
  import opened Wrappers

  /** The key mints, whether or not what it mints opens again. */
  predicate KeyMints(env: Env, key: Key) {
    env.keyToJson(key).Some? && |env.keyToJson(key).value| <= 0xFFFF
  }

  /** What a list's keys can do, row by row, in either direction. */
  datatype Keys = Keys(mint: seq<bool>, open: seq<bool>)

  predicate KeyBehaves(signer: Signer, row: Row, d: Direction, filters: Filters, mints: bool, opens: bool) {
    var minted := signer.mint(d, row.key, filters);
    && (minted.Ok? <==> mints) && (opens ==> mints)
    && (minted.Ok? ==> minted.value != ""
                       && signer.open(minted.value) == if opens then Some(Opened(filters, d, row.key)) else None)
  }

  ghost predicate Behaves(signer: Signer, list: seq<Row>, filters: Filters, keys: Keys) {
    && |keys.mint| == |keys.open| == |list|
    && forall i, d :: 0 <= i < |list| ==> KeyBehaves(signer, list[i], d, filters, keys.mint[i], keys.open[i])
  }

  function KeysOf(env: Env, list: seq<Row>, filters: Filters): Keys {
    Keys(seq(|list|, i requires 0 <= i < |list| => KeyMints(env, list[i].key)),
         seq(|list|, i requires 0 <= i < |list| => KeyFits(env, list[i].key, filters)))
  }

  lemma KeysDecide(env: Env, binding: Binding, list: seq<Row>, filters: Filters)
    requires Lawful(env)
    ensures Behaves(SignerOf(env, binding), list, filters, KeysOf(env, list, filters))
  {
    var keys := KeysOf(env, list, filters);
    forall i, d | 0 <= i < |list|
      ensures KeyBehaves(SignerOf(env, binding), list[i], d, filters, keys.mint[i], keys.open[i])
    {
      OpenInvertsMintUpToTheCap(env, d, list[i].key, filters, binding);
    }
  }

  // ------------------------------------------------------------------------
  // One page
  // ------------------------------------------------------------------------

  /** The rows at the ends a page has cursors for can be minted. */
  predicate EndsMint(keys: Keys, span: Span)
    requires span.a <= span.b <= |keys.mint|
  {
    span.a < span.b ==> (span.a > 0 ==> keys.mint[span.a]) && (span.b < |keys.mint| ==> keys.mint[span.b - 1])
  }

  /** The page shows rows `a..b`, and each cursor is there, minted from its end's row, exactly when rows lie beyond. */
  ghost predicate IsPage(signer: Signer, list: seq<Row>, filters: Filters, page: Page, span: Span) {
    && span.a <= span.b <= |list| && (list == [] || span.a < span.b)
    && page.items == ItemsOf(list[span.a..span.b]) && page.applied == filters
    && (page.previous.Some? <==> span.a > 0)
    && (page.previous.Some? ==> Ok(page.previous.value) == signer.mint(Backward, list[span.a].key, filters))
    && (page.next.Some? <==> span.b < |list|)
    && (page.next.Some? ==> Ok(page.next.value) == signer.mint(Forward, list[span.b - 1].key, filters))
  }

  lemma PageNeedsItsEnds(signer: Signer, list: seq<Row>, filters: Filters, keys: Keys, span: Span, size: U32)
    requires Behaves(signer, list, filters, keys) && span.a <= span.b <= |list| && (list == [] || span.a < span.b)
    ensures var r := PageOf(signer, list[span.a..span.b], span.a > 0, span.b < |list|, filters, size);
      && (r.Ok? <==> EndsMint(keys, span))
      && (r.Ok? ==> IsPage(signer, list, filters, r.value, span))
  {
    if list != [] {
      var rows := list[span.a..span.b];
      assert rows[0] == list[span.a] && rows[|rows| - 1] == list[span.b - 1];
      assert KeyBehaves(signer, list[span.a], Backward, filters, keys.mint[span.a], keys.open[span.a]);
      assert KeyBehaves(signer, list[span.b - 1], Forward, filters, keys.mint[span.b - 1], keys.open[span.b - 1]);
    }
  }

  // ------------------------------------------------------------------------
  // One turn
  // ------------------------------------------------------------------------

  /** The row whose cursor a turn sends back. */
  function TurnRow(span: Span, turn: Turn): nat
    requires turn.forward ==> span.b > 0
  {
    if turn.forward then span.b - 1 else span.a
  }

  lemma ForwardTurn(
    signer: Signer, cfg: Config, fetch: Fetch, list: seq<Row>, filters: Filters, keys: Keys, page: Page, span: Span,
    turn: Turn)
    requires Behaves(signer, list, filters, keys) && AnswersByRow(fetch, filters, list)
    requires IsPage(signer, list, filters, page, span)
    requires turn.forward && span.b < |list| && Fits(cfg, turn.pageSize, |list| - span.b)
    ensures var answer := Serve(signer, cfg, Request(page.next, turn.pageSize, signer.defaults), fetch);
      var moved := SpanAfter(cfg, |list|, span, turn);
      && moved.a < moved.b <= |list|
      && (answer.Ok? <==> keys.open[span.b - 1] && EndsMint(keys, moved))
      && (answer.Ok? ==> IsPage(signer, list, filters, answer.value, moved))
  {
    var i, s := span.b - 1, EffectivePageSize(cfg, turn.pageSize);
    assert KeyBehaves(signer, list[i], Forward, filters, keys.mint[i], keys.open[i]);
    if keys.open[i] {
      ServeIsCut(signer, cfg, Request(page.next, turn.pageSize, signer.defaults), fetch,
                 Source(filters, Forward, Some(list[i].key)), Truncated(list[i + 1..], LimitFor(s)));
      CutForwardIs(signer, list, i + 1, s, filters);
      PageNeedsItsEnds(signer, list, filters, keys, SpanAfter(cfg, |list|, span, turn), s);
    }
  }

  lemma BackwardTurn(
    signer: Signer, cfg: Config, fetch: Fetch, list: seq<Row>, filters: Filters, keys: Keys, page: Page, span: Span,
    turn: Turn)
    requires Behaves(signer, list, filters, keys) && AnswersByRow(fetch, filters, list)
    requires IsPage(signer, list, filters, page, span)
    requires !turn.forward && span.a > 0 && Fits(cfg, turn.pageSize, span.a)
    ensures var answer := Serve(signer, cfg, Request(page.previous, turn.pageSize, signer.defaults), fetch);
      var moved := SpanAfter(cfg, |list|, span, turn);
      && moved.a < moved.b <= |list|
      && (answer.Ok? <==> keys.open[span.a] && EndsMint(keys, moved))
      && (answer.Ok? ==> IsPage(signer, list, filters, answer.value, moved))
  {
    var i, s := span.a, EffectivePageSize(cfg, turn.pageSize);
    assert KeyBehaves(signer, list[i], Backward, filters, keys.mint[i], keys.open[i]);
    if keys.open[i] {
      ServeIsCut(signer, cfg, Request(page.previous, turn.pageSize, signer.defaults), fetch,
                 Source(filters, Backward, Some(list[i].key)), Truncated(Reversed(list[..i]), LimitFor(s)));
      CutBackwardIs(signer, list, i, s, filters);
      PageNeedsItsEnds(signer, list, filters, keys, SpanAfter(cfg, |list|, span, turn), s);
    }
  }

  // ------------------------------------------------------------------------
  // Whole walks
  // ------------------------------------------------------------------------

  /** Every turn's own cursor opens, and every page it comes to can mint the cursors it has. */
  predicate KeysHold(cfg: Config, keys: Keys, span: Span, turns: seq<Turn>)
    requires span.a <= span.b <= |keys.mint| == |keys.open|
    decreases |turns|
  {
    turns != [] && span.a < span.b && CanTurn(|keys.mint|, span, turns[0]) ==>
      var moved := SpanAfter(cfg, |keys.mint|, span, turns[0]);
      && keys.open[TurnRow(span, turns[0])] && moved.a <= moved.b <= |keys.mint| && EndsMint(keys, moved)
      && KeysHold(cfg, keys, moved, turns[1..])
  }

  /** The answers a turn can get, whichever way it goes. */
  ghost predicate TurnsServed(
    signer: Signer, cfg: Config, server: Server, list: seq<Row>, filters: Filters, keys: Keys)
    requires |keys.mint| == |keys.open| == |list|
  {
    forall page, span, turn: Turn {:trigger IsPage(signer, list, filters, page, span), CanTurn(|list|, span, turn)} ::
      IsPage(signer, list, filters, page, span) && CanTurn(|list|, span, turn)
      && Fits(cfg, turn.pageSize, RowsBeyond(|list|, span, turn)) ==>
        TurnServed(signer, cfg, server, list, filters, keys, page, span, turn)
  }

  ghost predicate TurnServed(
    signer: Signer, cfg: Config, server: Server, list: seq<Row>, filters: Filters, keys: Keys, page: Page, span: Span,
    turn: Turn)
    requires |keys.mint| == |keys.open| == |list|
    requires IsPage(signer, list, filters, page, span) && CanTurn(|list|, span, turn)
  {
    var answer := server(Request(CursorFor(page, turn), turn.pageSize, signer.defaults));
    var moved := SpanAfter(cfg, |list|, span, turn);
    && moved.a < moved.b <= |list|
    && (answer.Ok? <==> keys.open[TurnRow(span, turn)] && EndsMint(keys, moved))
    && (answer.Ok? ==> IsPage(signer, list, filters, answer.value, moved))
  }

  lemma TurnsAreServed(
    signer: Signer, cfg: Config, fetch: Fetch, server: Server, list: seq<Row>, filters: Filters, keys: Keys)
    requires Behaves(signer, list, filters, keys) && AnswersByRow(fetch, filters, list)
    requires forall req :: server(req) == Serve(signer, cfg, req, fetch)
    ensures TurnsServed(signer, cfg, server, list, filters, keys)
  {
    forall page, span, turn: Turn
      | IsPage(signer, list, filters, page, span) && CanTurn(|list|, span, turn)
        && Fits(cfg, turn.pageSize, RowsBeyond(|list|, span, turn))
      ensures TurnServed(signer, cfg, server, list, filters, keys, page, span, turn)
    {
      if turn.forward {
        ForwardTurn(signer, cfg, fetch, list, filters, keys, page, span, turn);
      } else {
        BackwardTurn(signer, cfg, fetch, list, filters, keys, page, span, turn);
      }
    }
  }

  lemma {:induction false} WalkNeedsItsKeys(
    signer: Signer, cfg: Config, server: Server, list: seq<Row>, filters: Filters, keys: Keys, page: Page, span: Span,
    turns: seq<Turn>)
    requires |keys.mint| == |keys.open| == |list| && TurnsServed(signer, cfg, server, list, filters, keys)
    requires IsPage(signer, list, filters, page, span) && TurnsFit(cfg, |list|, span, turns)
    ensures var shown, counted := Walk(server, signer.defaults, page, turns), SpanWalk(cfg, |list|, span, turns);
      && (shown.Some? <==> counted.Some? && KeysHold(cfg, keys, span, turns))
      && (shown.Some? ==> IsPage(signer, list, filters, shown.value, counted.value))
    decreases |turns|
  {
    if turns != [] && CanTurn(|list|, span, turns[0]) {
      assert TurnServed(signer, cfg, server, list, filters, keys, page, span, turns[0]);
      var answer := server(Request(CursorFor(page, turns[0]), turns[0].pageSize, signer.defaults));
      if answer.Ok? {
        WalkNeedsItsKeys(signer, cfg, server, list, filters, keys, answer.value,
                         SpanAfter(cfg, |list|, span, turns[0]), turns[1..]);
      }
    }
  }

  lemma FirstPageNeedsItsEnd(
    signer: Signer, cfg: Config, fetch: Fetch, list: seq<Row>, filters: Filters, keys: Keys, size: U32)
    requires Behaves(signer, list, filters, keys) && AnswersByRow(fetch, filters, list) && Fits(cfg, size, |list|)
    ensures var first := Serve(signer, cfg, Request(None, size, filters), fetch);
      var span := Span(0, Min(EffectivePageSize(cfg, size), |list|));
      && (first.Ok? <==> EndsMint(keys, span))
      && (first.Ok? ==> IsPage(signer, list, filters, first.value, span))
  {
    var s := EffectivePageSize(cfg, size);
    assert list[0..] == list;
    ServeIsCut(signer, cfg, Request(None, size, filters), fetch,
               Source(filters, Forward, None), Truncated(list, LimitFor(s)));
    CutForwardIs(signer, list, 0, s, filters);
    PageNeedsItsEnds(signer, list, filters, keys, Span(0, Min(s, |list|)), s);
  }

  /**
   Whatever the list's keys: the first page is served exactly when the key its next
   cursor needs can be minted, and a walk goes on exactly while rows lie that way,
   the cursor it sends back fits under the cap and the page it comes to can mint
   its own; it then shows exactly the rows counted.
   */
  lemma WalksGoOnIffTheirKeysHold(
    env: Env, cfg: Config, binding: Binding, fetch: Fetch, server: Server, list: seq<Row>, less: Order,
    filters: Filters, firstSize: U32, turns: seq<Turn>)
    requires IsServed(env, cfg, binding, fetch, server, list, less, filters)
    requires Fits(cfg, firstSize, |list|)
    requires TurnsFit(cfg, |list|, Span(0, Min(EffectivePageSize(cfg, firstSize), |list|)), turns)
    ensures var first, keys := server(Request(None, firstSize, filters)), KeysOf(env, list, filters);
      var span := Span(0, Min(EffectivePageSize(cfg, firstSize), |list|));
      && (first.Ok? <==> EndsMint(keys, span))
      && (first.Ok? ==>
            var shown := Walk(server, env.defaultFilters, first.value, turns);
            var counted := SpanWalk(cfg, |list|, span, turns);
            && (shown.Some? <==> counted.Some? && KeysHold(cfg, keys, span, turns))
            && (shown.Some? ==> IsPage(SignerOf(env, binding), list, filters, shown.value, counted.value)))
  {
    var signer, keys := SignerOf(env, binding), KeysOf(env, list, filters);
    KeysDecide(env, binding, list, filters);
    HonestAnswersByRow(fetch, filters, list, less);
    FirstPageNeedsItsEnd(signer, cfg, fetch, list, filters, keys, firstSize);
    TurnsAreServed(signer, cfg, fetch, server, list, filters, keys);
    var first := server(Request(None, firstSize, filters));
    if first.Ok? {
      WalkNeedsItsKeys(signer, cfg, server, list, filters, keys, first.value,
                       Span(0, Min(EffectivePageSize(cfg, firstSize), |list|)), turns);
    }
  }
}
