/** The page iterator: a loop over service pages with an item limit, a starting token, a page cut
    in its middle, and a token to resume from. */
module Pagination {
  import opened Prelude

  /** A page of the service: the items under the primary result key and the token of the next
      page. A token is the index of the page it asks for. */
  datatype Page<T> = Page(items: seq<T>, next: Option<nat>)

  /** A starting or resume token: the service's own token (none for the first page) and how many
      items of that page have been delivered already. */
  datatype Position = Position(token: Option<nat>, skip: nat)

  function PageOf(token: Option<nat>): nat {
    if token == None then 0 else token.value
  }

  /** A deterministic finite listing: a page's token leads forward, or back to the page itself,
      which is how a broken service repeats itself. */
  ghost predicate Listing<T>(pages: seq<Page<T>>) {
    pages != [] && forall k | 0 <= k < |pages| :: pages[k].next.Some? ==> k <= pages[k].next.value < |pages|
  }

  ghost predicate Valid<T>(pages: seq<Page<T>>, at: Position) {
    Listing(pages) && PageOf(at.token) < |pages|
  }

  predicate SelfLoop<T>(pages: seq<Page<T>>, k: nat)
    requires k < |pages|
  {
    pages[k].next == Some(k)
  }

  /** Everything after page `k`. */
  function After<T>(pages: seq<Page<T>>, k: nat): seq<T>
    requires Listing(pages) && k < |pages|
    decreases |pages| - k
  {
    if pages[k].next == None || SelfLoop(pages, k) then []
    else var n := pages[k].next.value; pages[n].items + After(pages, n)
  }

  /** The service repeats a token somewhere after page `k`. */
  predicate Repeats<T>(pages: seq<Page<T>>, k: nat)
    requires Listing(pages) && k < |pages|
    decreases |pages| - k
  {
    SelfLoop(pages, k) || (pages[k].next.Some? && Repeats(pages, pages[k].next.value))
  }

  function Drop<T>(s: seq<T>, n: nat): seq<T> {
    if n <= |s| then s[n..] else []
  }

  /** The listing from a position on. */
  function From<T>(pages: seq<Page<T>>, at: Position): seq<T>
    requires Valid(pages, at)
  {
    Drop(pages[PageOf(at.token)].items, at.skip) + After(pages, PageOf(at.token))
  }

  /** What a run without a limit yields before it ends or fails: a page that asks for itself is
      served a second time if the run starts there. */
  function Served<T>(pages: seq<Page<T>>, at: Position): seq<T>
    requires Valid(pages, at)
  {
    From(pages, at) + if SelfLoop(pages, PageOf(at.token)) then pages[PageOf(at.token)].items else []
  }

  function UpToLimit<T>(items: seq<T>, maxItems: Option<nat>): seq<T> {
    if maxItems.Some? && maxItems.value < |items| then items[..maxItems.value] else items
  }

  datatype Run<T> = Run(items: seq<T>, resume: Option<Position>)

  /** What one run promises: the next items in order, as many as allowed; the rest of the listing
      is what its resume token leads to, and without a resume token nothing is left. */
  ghost predicate Splits<T>(pages: seq<Page<T>>, start: Position, maxItems: Option<nat>, run: Run<T>)
    requires Valid(pages, start)
  {
    && (run.resume.Some? ==>
          && Valid(pages, run.resume.value)
          && From(pages, start) == run.items + From(pages, run.resume.value))
    && (run.resume == None ==> run.items == From(pages, start))
    && |run.items| == (if maxItems == None then |From(pages, start)| else Min(maxItems.value, |From(pages, start)|))
  }

  /** Cutting a page in its middle leaves the rest of that page to the resume token. */
  lemma CutPage<T>(pages: seq<Page<T>>, at: Position, keep: nat)
    requires Valid(pages, at) && keep <= |Drop(pages[PageOf(at.token)].items, at.skip)|
    ensures From(pages, at)
         == Drop(pages[PageOf(at.token)].items, at.skip)[..keep] + From(pages, Position(at.token, keep + at.skip))
  {
    var items := pages[PageOf(at.token)].items;
    assert Drop(items, at.skip) == Drop(items, at.skip)[..keep] + Drop(items, keep + at.skip);
    Associative(Drop(items, at.skip)[..keep], Drop(items, keep + at.skip), After(pages, PageOf(at.token)));
  }

  /** A page delivered to its end leaves the rest of the listing to its next token. */
  lemma TurnPage<T>(pages: seq<Page<T>>, at: Position)
    requires Valid(pages, at)
    ensures var k := PageOf(at.token);
            var current := Drop(pages[k].items, at.skip);
            && (pages[k].next == None ==> From(pages, at) == current)
            && (pages[k].next.Some? && !SelfLoop(pages, k) ==>
                  From(pages, at) == current + From(pages, Position(pages[k].next, 0)))
            && (pages[k].next.Some? ==> Valid(pages, Position(pages[k].next, 0)))
            && (pages[k].next.Some? && !SelfLoop(pages, k) ==>
                  (Repeats(pages, k) <==> Repeats(pages, pages[k].next.value)))
            && (SelfLoop(pages, k) ==> Repeats(pages, k) && From(pages, at) == current)
            && (pages[k].next == None ==> !Repeats(pages, k))
  {
    var k := PageOf(at.token);
    var current := Drop(pages[k].items, at.skip);
    assert current + [] == current;
  }

  /** The same of what a run still serves, on its first request and later. */
  lemma TurnServed<T>(pages: seq<Page<T>>, at: Position, first: bool)
    requires Valid(pages, at)
    ensures var k := PageOf(at.token);
            var current := Drop(pages[k].items, at.skip);
            var left := if first then Served(pages, at) else From(pages, at);
            && current <= left
            && (pages[k].next == None ==> left == current)
            && (!first && SelfLoop(pages, k) ==> left == current)
            && (pages[k].next.Some? && (first || !SelfLoop(pages, k)) ==>
                  left == current + From(pages, Position(pages[k].next, 0)))
  {
    var k := PageOf(at.token);
    var current := Drop(pages[k].items, at.skip);
    TurnPage(pages, at);
    assert From(pages, at) + [] == From(pages, at);
    if SelfLoop(pages, k) {
      assert From(pages, Position(pages[k].next, 0)) == pages[k].items + [] == pages[k].items;
    }
  }

  // ---- One run ----

  /** The pages that a run without a limit yields, the first one less what was delivered before. */
  function PagesServed<T>(pages: seq<Page<T>>, at: Position, first: bool): seq<seq<T>>
    requires Valid(pages, at)
    decreases |pages| - PageOf(at.token), first
  {
    var page := pages[PageOf(at.token)];
    [Drop(page.items, at.skip)]
    + if page.next == None || (!first && SelfLoop(pages, PageOf(at.token))) then []
      else PagesServed(pages, Position(page.next, 0), false)
  }

  /** The yielded pages are those pages, one for one, up to a last one that may be cut. */
  ghost predicate OnPageBoundaries<T>(served: seq<seq<T>>, yielded: seq<seq<T>>) {
    && 0 < |yielded| <= |served|
    && (forall i | 0 <= i < |yielded| - 1 :: yielded[i] == served[i])
    && yielded[|yielded| - 1] <= served[|yielded| - 1]
  }

  lemma LastPage<T>(served: seq<seq<T>>, before: seq<seq<T>>, rest: seq<seq<T>>, last: seq<T>)
    requires served == before + rest && rest != [] && last <= rest[0]
    ensures OnPageBoundaries(served, before + [last])
  {
    assert served[|before|] == rest[0];
  }

  lemma {:induction false} PagesServedAre<T>(pages: seq<Page<T>>, at: Position, first: bool)
    requires Valid(pages, at)
    ensures Flatten(PagesServed(pages, at, first)) == if first then Served(pages, at) else From(pages, at)
    decreases |pages| - PageOf(at.token), first
  {
    hide From, Served, After;
    TurnServed(pages, at, first);
    var k := PageOf(at.token);
    var current := Drop(pages[k].items, at.skip);
    if pages[k].next == None || (!first && SelfLoop(pages, k)) {
      assert PagesServed(pages, at, first) == [current];
      FlattenNil<T>();
      assert current + [] == current;
    } else {
      TurnPage(pages, at);
      var next := Position(pages[k].next, 0);
      PagesServedAre(pages, next, false);
      assert PagesServed(pages, at, first)[1..] == PagesServed(pages, next, false);
    }
  }

  /** A service whose pages simply follow each other. */
  ghost predicate InOrder<T>(pages: seq<Page<T>>) {
    pages != [] && forall k | 0 <= k < |pages| :: pages[k].next == if k + 1 < |pages| then Some(k + 1) else None
  }

  function AllItems<T>(pages: seq<Page<T>>): seq<T> {
    if pages == [] then [] else pages[0].items + AllItems(pages[1..])
  }

  /** Of such a service the listing is the items of all its pages, and no token is repeated. */
  lemma {:induction false} ListingInOrder<T>(pages: seq<Page<T>>, k: nat)
    requires InOrder(pages) && k < |pages|
    ensures Listing(pages) && After(pages, k) == AllItems(pages[k + 1..]) && !Repeats(pages, k)
    decreases |pages| - k
  {
    if k + 1 == |pages| {
    } else {
      ListingInOrder(pages, k + 1);
      assert pages[k + 1..][1..] == pages[k + 2..];
    }
  }

  lemma WholeListing<T>(pages: seq<Page<T>>)
    requires InOrder(pages)
    ensures Valid(pages, Position(None, 0)) && From(pages, Position(None, 0)) == AllItems(pages)
    ensures Served(pages, Position(None, 0)) == AllItems(pages)
  {
    ListingInOrder(pages, 0);
    DropNothing(pages[0].items);
    assert AllItems(pages) + [] == AllItems(pages);
  }

  /** What a run from `start` promises when it ends, having yielded these items. */
  ghost predicate Outcome<T>(
    pages: seq<Page<T>>, start: Position, maxItems: Option<nat>, run: Run<T>, failed: bool)
    requires Valid(pages, start)
  {
    var served, repeats := Served(pages, start), Repeats(pages, PageOf(start.token));
    // it yields what the service has, up to the limit
    && run.items == UpToLimit(served, maxItems)
    // it fails exactly when the service repeats a token before the limit is reached
    && (failed <==> repeats && (maxItems == None || maxItems.value > |served|))
    // it splits the listing, if the service repeats no token or the limit is reached before the listing is
    && (!repeats || (maxItems.Some? && maxItems.value < |From(pages, start)|) ==> Splits(pages, start, maxItems, run))
    && (maxItems == None ==> run.resume == None)
    && (!repeats && run.resume.Some? ==> !Repeats(pages, PageOf(run.resume.value.token)))
  }

  /** A run from `start` is about to ask for a page, having delivered these items. */
  ghost predicate Going<T>(pages: seq<Page<T>>, start: Position, at: Position, first: bool, done: seq<T>)
    requires Valid(pages, start)
  {
    var loops := SelfLoop(pages, PageOf(start.token));
    && Valid(pages, at)
    && Served(pages, start) == done + (if first then Served(pages, at) else From(pages, at))
    && (first || !loops ==> From(pages, start) == done + From(pages, at))
    && (!first && loops ==> |done| >= |From(pages, start)|)
    && (loops ==> Repeats(pages, PageOf(start.token)))
    && (Repeats(pages, PageOf(start.token)) <==> Repeats(pages, PageOf(at.token)))
  }

  function Current<T>(pages: seq<Page<T>>, at: Position): seq<T>
    requires Valid(pages, at)
  {
    Drop(pages[PageOf(at.token)].items, at.skip)
  }

  lemma StartGoing<T>(pages: seq<Page<T>>, start: Position)
    requires Valid(pages, start)
    ensures Going(pages, start, start, true, [])
  {
    TurnPage(pages, start);
    assert [] + From(pages, start) == From(pages, start) && [] + Served(pages, start) == Served(pages, start);
  }

  lemma GoOn<T>(pages: seq<Page<T>>, start: Position, at: Position, first: bool, done: seq<T>)
    requires Valid(pages, start) && Going(pages, start, at, first, done) && (first ==> at == start && done == [])
    requires var k := PageOf(at.token); pages[k].next.Some? && (first || !SelfLoop(pages, k))
    ensures Going(pages, start, Position(pages[PageOf(at.token)].next, 0), false, done + Current(pages, at))
  {
    hide From, Served, Repeats;
    TurnPage(pages, at);
    TurnServed(pages, at, first);
    var next := Position(pages[PageOf(at.token)].next, 0);
    Associative(done, Current(pages, at), From(pages, next));
    if first && SelfLoop(pages, PageOf(at.token)) {
      assert done + Current(pages, at) == Current(pages, at);
    }
  }

  /** The page is cut: the limit is reached in its middle. */
  lemma EndsInPage<T>(pages: seq<Page<T>>, start: Position, at: Position, first: bool, done: seq<T>, keep: nat)
    requires Valid(pages, start) && Going(pages, start, at, first, done) && keep < |Current(pages, at)|
    ensures Outcome(pages, start, Some(|done| + keep),
                    Run(done + Current(pages, at)[..keep], Some(Position(at.token, keep + at.skip))), false)
  {
    hide From, Served, Repeats;
    var current, rest := Current(pages, at), From(pages, Position(at.token, keep + at.skip));
    TurnServed(pages, at, first);
    LimitReached(Served(pages, start), done, if first then Served(pages, at) else From(pages, at), current, keep);
    CutPage(pages, at, keep);
    Associative(done, current[..keep], rest);
  }

  /** The limit is reached with the last item of a page. */
  lemma EndsAfterPage<T>(pages: seq<Page<T>>, start: Position, at: Position, first: bool, done: seq<T>)
    requires Valid(pages, start) && Going(pages, start, at, first, done) && pages[PageOf(at.token)].next.Some?
    ensures var items := done + Current(pages, at);
            Outcome(pages, start, Some(|items|), Run(items, Some(Position(pages[PageOf(at.token)].next, 0))), false)
  {
    hide From, Served, Repeats;
    var current, next := Current(pages, at), Position(pages[PageOf(at.token)].next, 0);
    TurnPage(pages, at);
    TurnServed(pages, at, first);
    LimitReached(Served(pages, start), done, if first then Served(pages, at) else From(pages, at), current, |current|);
    Associative(done, current, From(pages, next));
    assert current[..|current|] == current;
  }

  /** The listing ends, within the limit. */
  lemma EndsWithListing<T>(
    pages: seq<Page<T>>, start: Position, at: Position, first: bool, done: seq<T>, maxItems: Option<nat>)
    requires Valid(pages, start) && Going(pages, start, at, first, done) && pages[PageOf(at.token)].next == None
    requires maxItems.Some? ==> |done| + |Current(pages, at)| <= maxItems.value
    ensures Outcome(pages, start, maxItems, Run(done + Current(pages, at), None), false)
  {
    hide From, Served, Repeats;
    TurnPage(pages, at);
    TurnServed(pages, at, first);
  }

  /** The service repeats a token, within the limit. */
  lemma EndsInError<T>(
    pages: seq<Page<T>>, start: Position, at: Position, done: seq<T>, maxItems: Option<nat>)
    requires Valid(pages, start) && Going(pages, start, at, false, done) && SelfLoop(pages, PageOf(at.token))
    requires maxItems.Some? ==> |done| + |Current(pages, at)| < maxItems.value
    ensures Outcome(pages, start, maxItems, Run(done + Current(pages, at), None), true)
  {
    hide From, Served, Repeats;
    TurnPage(pages, at);
    TurnServed(pages, at, false);
  }

  /** A limit that is reached within a piece. */
  lemma LimitReached<T>(whole: seq<T>, done: seq<T>, left: seq<T>, piece: seq<T>, keep: nat)
    requires whole == done + left && piece <= left && keep <= |piece|
    ensures UpToLimit(whole, Some(|done| + keep)) == done + piece[..keep] && |done| + keep <= |whole|
  {
    assert left[..keep] == piece[..keep];
  }

  /** How one turn of the loop ends. */
  datatype Verdict = More | Stop | RepeatedToken

  class AioPageIterator<T> {
    const pages: seq<Page<T>>          // the service
    const maxItems: Option<nat>
    const startingToken: Option<Position>
    var kwargsToken: Option<nat>       // the token parameter in the operation's kwargs
    var resumeToken: Option<Position>

    ghost predicate Usable()
      reads this
    {
      && Valid(pages, if startingToken.Some? then startingToken.value else Position(None, 0))
      && PageOf(kwargsToken) < |pages|
    }

    ghost predicate Fresh()
      reads this
    {
      kwargsToken == None && resumeToken == None
    }

    /** Where a fresh iterator starts. */
    function Start(): Position {
      if startingToken.Some? then startingToken.value else Position(None, 0)
    }

    constructor (pages: seq<Page<T>>, maxItems: Option<nat>, startingToken: Option<Position>)
      requires Valid(pages, if startingToken.Some? then startingToken.value else Position(None, 0))
      ensures Usable() && Fresh() && this.pages == pages
      ensures this.maxItems == maxItems && this.startingToken == startingToken
    {
      this.pages := pages;
      this.maxItems := maxItems;
      this.startingToken := startingToken;
      kwargsToken := None;
      resumeToken := None;
    }

    /** `_handle_first_request`: what the starting token says was delivered is dropped. */
    method HandleFirstRequest(items: seq<T>) returns (current: seq<T>, startingTruncation: nat)
      requires startingToken.Some?
      ensures startingTruncation == Start().skip && current == Drop(items, startingTruncation)
    {
      startingTruncation := startingToken.value.skip;
      current := Drop(items, startingTruncation);
    }

    /** `_truncate_response`: the first items are kept, and the resume token says how many of the
        page have been delivered. */
    method TruncateResponse(items: seq<T>, truncateAmount: nat, startingTruncation: nat, nextToken: Option<nat>)
      returns (kept: seq<T>)
      requires truncateAmount <= |items|
      modifies this`resumeToken
      ensures |kept| == |items| - truncateAmount && kept == items[..|kept|]
      ensures resumeToken == Some(Position(nextToken, |kept| + startingTruncation))
    {
      var keep := |items| - truncateAmount;
      kept := items[..keep];
      resumeToken := Some(Position(nextToken, keep + startingTruncation));
    }

    /** The turn that reaches the limit in the middle of a page. */
    method LastTurn(items: seq<T>, totalItems: nat, startingTruncation: nat, nextToken: Option<nat>,
                    ghost first: bool, ghost done: seq<T>, ghost tracked: bool)
      returns (kept: seq<T>)
      requires maxItems.Some? && totalItems == |done| <= maxItems.value < totalItems + |items|
      requires Valid(pages, Start()) && (tracked ==> Valid(pages, Position(nextToken, startingTruncation)))
      requires tracked ==>
        && Going(pages, Start(), Position(nextToken, startingTruncation), first, done)
        && items == Current(pages, Position(nextToken, startingTruncation))
      modifies this`resumeToken
      ensures tracked ==> Outcome(pages, Start(), maxItems, Run(done + kept, resumeToken), false)
      ensures kept <= items
    {
      hide Valid, Going, Outcome, Current;
      kept := TruncateResponse(items, totalItems + |items| - maxItems.value, startingTruncation, nextToken);
      if tracked {
        EndsInPage(pages, Start(), Position(nextToken, startingTruncation), first, done, |kept|);
      }
    }

    /** One turn of the loop of `__anext__`: the items of the page as it is yielded, and whether to
        go on. `done` is what was yielded before, `skip` what of the page was delivered before this
        run; the promises about the listing are those of a fresh iterator. */
    method Turn(nextToken: Option<nat>, previousNextToken: Option<nat>, totalItems: nat, firstRequest: bool,
                ghost skip: nat, ghost done: seq<T>, ghost tracked: bool)
      returns (current: seq<T>, next: Option<nat>, verdict: Verdict)
      requires Usable() && totalItems == |done|
      requires if firstRequest then previousNextToken == None && skip == Start().skip && done == []
               else previousNextToken == Some(PageOf(kwargsToken)) && skip == 0
      requires maxItems.Some? && !firstRequest ==> totalItems < maxItems.value
      requires tracked ==> nextToken == kwargsToken && resumeToken == None
      requires tracked ==> Going(pages, Start(), Position(kwargsToken, skip), firstRequest, done)
      requires tracked && firstRequest ==> Position(kwargsToken, skip) == Start()
      modifies this`kwargsToken, this`resumeToken
      ensures Usable()
      ensures Valid(pages, Position(old(kwargsToken), skip))
      ensures current <= Current(pages, Position(old(kwargsToken), skip))
      ensures verdict == More ==>
        && current == Current(pages, Position(old(kwargsToken), skip))
        && next == pages[PageOf(old(kwargsToken))].next
        && next == kwargsToken && next.Some? && resumeToken == old(resumeToken)
        && old(PageOf(kwargsToken)) <= next.value && (!firstRequest ==> old(PageOf(kwargsToken)) < next.value)
        && (maxItems.Some? ==> |done| + |current| < maxItems.value)
      ensures verdict == More && tracked ==> Going(pages, Start(), Position(next, 0), false, done + current)
      ensures verdict != More && tracked ==>
        Outcome(pages, Start(), maxItems, Run(done + current, resumeToken), verdict == RepeatedToken)
      ensures verdict == RepeatedToken ==> exists k | 0 <= k < |pages| :: SelfLoop(pages, k)
    {
      PageExists(pages, Start(), kwargsToken);
      hide Listing, Valid, Outcome, Going, Drop;
      ghost var at := Position(kwargsToken, skip);
      var page := pages[PageOf(kwargsToken)];
      current := page.items;
      next := nextToken;
      var startingTruncation := 0;
      if firstRequest && startingToken.Some? {
        current, startingTruncation := HandleFirstRequest(current);
      }
      DropNothing(page.items);
      assert current == Current(pages, at) && startingTruncation == skip;
      if maxItems.Some? && totalItems + |current| > maxItems.value {
        assert maxItems.value >= totalItems;
        current := LastTurn(current, totalItems, startingTruncation, nextToken, firstRequest, done, tracked);
        return current, next, Stop;
      }
      next := page.next;
      if next == None {
        if tracked {
          EndsWithListing(pages, Start(), at, firstRequest, done, maxItems);
        }
        return current, next, Stop;
      }
      if maxItems.Some? && totalItems + |current| == maxItems.value {
        resumeToken := Some(Position(next, 0));
        if tracked {
          EndsAfterPage(pages, Start(), at, firstRequest, done);
        }
        return current, next, Stop;
      }
      if previousNextToken.Some? && previousNextToken == next {
        assert SelfLoop(pages, PageOf(kwargsToken));
        if tracked {
          EndsInError(pages, Start(), at, done, maxItems);
        }
        return current, next, RepeatedToken;
      }
      if tracked {
        GoOn(pages, Start(), at, firstRequest, done);
      }
      kwargsToken := next;
      return current, next, More;
    }

    /** The generator body of `__anext__`: the primary items of every page it yields, and whether
        it ended with the error for a repeated token. */
    method Iterate() returns (yielded: seq<seq<T>>, failed: bool)
      requires Usable()
      modifies this
      ensures old(Fresh()) ==> Outcome(pages, Start(), maxItems, Run(Flatten(yielded), resumeToken), failed)
      ensures old(Fresh()) ==> OnPageBoundaries(PagesServed(pages, Start(), true), yielded)
      ensures failed ==> exists k | 0 <= k < |pages| :: SelfLoop(pages, k)
    {
      assert PageOf(Start().token) < |pages|;
      StartGoing(pages, Start());
      hide Valid, Outcome, Going, Flatten, SelfLoop, OnPageBoundaries, Drop, PagesServed;
      assert [] + PagesServed(pages, Start(), true) == PagesServed(pages, Start(), true);
      yielded := [];
      FlattenNil<T>();
      var previousNextToken: Option<nat>, nextToken: Option<nat> := None, None;
      var totalItems, firstRequest := 0, true;
      if startingToken.Some? {
        nextToken := startingToken.value.token;
        kwargsToken := startingToken.value.token;
      }
      ghost var skip, all := Start().skip, PagesServed(pages, Start(), true);
      while true
        invariant Usable() && totalItems == |Flatten(yielded)| && resumeToken == old(resumeToken)
        invariant if firstRequest then previousNextToken == None && skip == Start().skip && Flatten(yielded) == []
                  else previousNextToken == Some(PageOf(kwargsToken)) && skip == 0
        invariant maxItems.Some? && !firstRequest ==> totalItems < maxItems.value
        invariant old(Fresh()) ==> nextToken == kwargsToken
        invariant old(Fresh()) ==> Going(pages, Start(), Position(kwargsToken, skip), firstRequest, Flatten(yielded))
        invariant old(Fresh()) && firstRequest ==> Position(kwargsToken, skip) == Start()
        invariant Valid(pages, Position(kwargsToken, skip))
        invariant old(Fresh()) ==> all == yielded + PagesServed(pages, Position(kwargsToken, skip), firstRequest)
        decreases |pages| - PageOf(kwargsToken), firstRequest
      {
        ghost var at := Position(kwargsToken, skip);
        ghost var rest := PagesServed(pages, at, firstRequest);
        var current, verdict;
        current, nextToken, verdict :=
          Turn(nextToken, previousNextToken, totalItems, firstRequest, skip, Flatten(yielded), old(Fresh()));
        FlattenSnoc(yielded, current);
        PagesStart(pages, at, firstRequest);
        if old(Fresh()) {
          LastPage(all, yielded, rest, current);
        }
        if verdict == More {
          PagesGoOn(pages, at, firstRequest, yielded);
        }
        yielded := yielded + [current];
        if verdict != More {
          return yielded, verdict == RepeatedToken;
        }
        totalItems := totalItems + |current|;
        firstRequest := false;
        previousNextToken := nextToken;
        skip := 0;
      }
    }
  }

  lemma PagesStart<T>(pages: seq<Page<T>>, at: Position, first: bool)
    requires Valid(pages, at)
    ensures PagesServed(pages, at, first) != [] && PagesServed(pages, at, first)[0] == Current(pages, at)
  {
  }

  lemma PagesGoOn<T>(pages: seq<Page<T>>, at: Position, first: bool, yielded: seq<seq<T>>)
    requires Valid(pages, at)
    requires var k := PageOf(at.token); pages[k].next.Some? && (first || pages[k].next.value != k)
    ensures var next := Position(pages[PageOf(at.token)].next, 0);
            && Valid(pages, next)
            && yielded + PagesServed(pages, at, first)
            == yielded + [Current(pages, at)] + PagesServed(pages, next, false)
  {
  }

  /** A page that exists, exists at any position in it, and so does the one that it names. */
  lemma PageExists<T>(pages: seq<Page<T>>, start: Position, token: Option<nat>)
    requires Valid(pages, start) && PageOf(token) < |pages|
    ensures var next := pages[PageOf(token)].next;
            next.Some? ==> PageOf(token) <= next.value < |pages|
    ensures forall skip: nat :: Valid(pages, Position(token, skip))
  {
  }

  lemma DropNothing<T>(items: seq<T>)
    ensures Drop(items, 0) == items
  {
  }

  // ---- Chains of runs ----

  /** Runs with the given limits, each started from the resume token of the one before; a chain
      ends when a run leaves no resume token or the limits are used up. */
  ghost predicate Chain<T>(pages: seq<Page<T>>, start: Position, limits: seq<nat>, runs: seq<Run<T>>)
    requires Valid(pages, start)
    decreases |limits|
  {
    if limits == [] then runs == []
    else
      && runs != []
      && Splits(pages, start, Some(limits[0]), runs[0])
      && (if runs[0].resume == None then |runs| == 1
          else Chain(pages, runs[0].resume.value, limits[1..], runs[1..]))
  }

  function Items<T>(runs: seq<Run<T>>): seq<T> {
    if runs == [] then [] else runs[0].items + Items(runs[1..])
  }

  /** Where a chain leaves off: nowhere, once a run has left no resume token. */
  function End<T>(start: Position, runs: seq<Run<T>>): Option<Position> {
    if runs == [] then Some(start) else runs[|runs| - 1].resume
  }

  /** Chaining runs of any sizes loses nothing and repeats nothing: what they delivered, followed
      by what the last resume token leads to, is the listing, and they delivered as many items as
      their limits allow together. */
  lemma {:induction false} ChainRebuilds<T>(pages: seq<Page<T>>, start: Position, limits: seq<nat>, runs: seq<Run<T>>)
    requires Valid(pages, start) && Chain(pages, start, limits, runs)
    ensures var end := End(start, runs);
            && (end.Some? ==> Valid(pages, end.value) && From(pages, start) == Items(runs) + From(pages, end.value))
            && (end == None ==> Items(runs) == From(pages, start))
            && |Items(runs)| == Min(Sum(limits), |From(pages, start)|)
    decreases |limits|
  {
    hide From, Valid;
    if limits == [] {
      assert [] + From(pages, start) == From(pages, start);
    } else if runs[0].resume == None {
      assert runs == [runs[0]] && Items(runs) == runs[0].items + Items(runs[1..]);
    } else {
      var next := runs[0].resume.value;
      ChainRebuilds(pages, next, limits[1..], runs[1..]);
      var end := End(next, runs[1..]);
      assert End(start, runs) == end;
      if end.Some? {
        Associative(runs[0].items, Items(runs[1..]), From(pages, end.value));
      }
    }
  }

  /** After any chain, one unlimited run from its end rebuilds the unlimited listing. */
  lemma ChainThenRest<T>(pages: seq<Page<T>>, start: Position, limits: seq<nat>, runs: seq<Run<T>>, last: Run<T>)
    requires Valid(pages, start) && Chain(pages, start, limits, runs) && End(start, runs).Some?
    requires Valid(pages, End(start, runs).value) && Splits(pages, End(start, runs).value, None, last)
    ensures From(pages, start) == Items(runs) + last.items
  {
    ChainRebuilds(pages, start, limits, runs);
    var end := End(start, runs).value;
    if last.resume.Some? {
      assert |last.items| == |From(pages, end)|;
      assert last.items == From(pages, end)[..|last.items|] == From(pages, end);
    }
  }
}
