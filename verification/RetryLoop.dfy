/** The legacy retry loop: the endpoint sends, asks its retry handlers, and sends again. */
module RetryLoop {
  import opened Prelude

  /** What a parsed response says of itself: its HTTP status, its error code and region, and the
      `x-amz-bucket-region` header, if the response metadata has headers at all. */
  datatype Info = Info(status: Option<nat>, code: string, region: Option<string>, headers: Option<Option<string>>)

  /** What one send came back with. */
  datatype Reply = Response(body: string, hasMetadata: bool, info: Info) | Exception(kind: nat)

  /** What a checker says of a reply; an exception's kind stands for its class. */
  datatype Verdict = Retry | Accept | Raises(kind: nat)

  type Checker = (nat, Reply) -> Verdict

  // ---- Checkers ----

  /** `AioMultiChecker`: the first checker that wants a retry, or raises, decides. */
  function FirstVerdict(checkers: seq<Checker>, attempt: nat, reply: Reply): Verdict {
    if checkers == [] then Accept
    else
      var v := checkers[0](attempt, reply);
      if v == Accept then FirstVerdict(checkers[1..], attempt, reply) else v
  }

  method MultiChecker(checkers: seq<Checker>, attempt: nat, reply: Reply) returns (v: Verdict)
    ensures v == FirstVerdict(checkers, attempt, reply)
    ensures v == Accept <==> forall i | 0 <= i < |checkers| :: checkers[i](attempt, reply) == Accept
    ensures v != Accept ==> exists i | 0 <= i < |checkers| ::
      checkers[i](attempt, reply) == v && forall j | 0 <= j < i :: checkers[j](attempt, reply) == Accept
  {
    for i := 0 to |checkers|
      invariant forall j | 0 <= j < i :: checkers[j](attempt, reply) == Accept
      invariant FirstVerdict(checkers, attempt, reply) == FirstVerdict(checkers[i..], attempt, reply)
    {
      v := checkers[i](attempt, reply);
      if v != Accept {
        return;
      }
    }
    return Accept;
  }

  /** One retry policy of the configuration: its checker and the exceptions it names. */
  datatype Policy = Policy(checker: Checker, retryable: set<nat>)

  /** `AioMaxAttemptsDecorator` around its checker. */
  datatype Decorator = Decorator(checkers: seq<Checker>, maxAttempts: nat, retryable: set<nat>)

  function AllRetryable(policies: seq<Policy>): set<nat> {
    if policies == [] then {} else policies[0].retryable + AllRetryable(policies[1..])
  }

  lemma {:induction false} AllRetryableSnoc(policies: seq<Policy>, p: Policy)
    ensures AllRetryable(policies + [p]) == AllRetryable(policies) + p.retryable
  {
    if policies == [] {
      assert policies + [p] == [p];
    } else {
      assert (policies + [p])[1..] == policies[1..] + [p];
      AllRetryableSnoc(policies[1..], p);
    }
  }

  /** `create_checker_from_retry_config`: with a single policy the retryable exceptions are not
      handed to the decorator. */
  method CreateChecker(policies: seq<Policy>, maxAttempts: nat) returns (d: Decorator)
    ensures d.maxAttempts == maxAttempts && |d.checkers| == |policies|
    ensures forall i | 0 <= i < |policies| :: d.checkers[i] == policies[i].checker
    ensures d.retryable == if |policies| == 1 then {} else AllRetryable(policies)
  {
    var checkers, retryable := [], {};
    for i := 0 to |policies|
      invariant |checkers| == i && forall j | 0 <= j < i :: checkers[j] == policies[j].checker
      invariant retryable == AllRetryable(policies[..i])
    {
      checkers := checkers + [policies[i].checker];
      assert policies[..i + 1] == policies[..i] + [policies[i]];
      AllRetryableSnoc(policies[..i], policies[i]);
      retryable := retryable + policies[i].retryable;
    }
    assert policies[..|policies|] == policies;
    if |checkers| == 1 {
      return Decorator(checkers, maxAttempts, {});
    }
    return Decorator(checkers, maxAttempts, retryable);
  }

  /** `_should_retry`: retryable exceptions count as a wish to retry, but only before the last attempt. */
  function ShouldRetry(d: Decorator, attempt: nat, reply: Reply): Verdict {
    var v := FirstVerdict(d.checkers, attempt, reply);
    if d.retryable != {} && attempt < d.maxAttempts && v.Raises? && v.kind in d.retryable then Retry else v
  }

  /** The decorator's `_call`: no retry from the last attempt on. */
  function Decorated(d: Decorator, attempt: nat, reply: Reply): Verdict {
    var v := ShouldRetry(d, attempt, reply);
    if v == Retry && attempt >= d.maxAttempts then Accept else v
  }

  /** The decorator marks the response when it refuses a retry for want of attempts. */
  predicate Marks(d: Decorator, attempt: nat, reply: Reply) {
    ShouldRetry(d, attempt, reply) == Retry && attempt >= d.maxAttempts && reply.Response? && reply.hasMetadata
  }

  /** The first checker that does not accept is the one with this index. */
  ghost predicate Decides(checkers: seq<Checker>, attempt: nat, reply: Reply, i: nat) {
    && i < |checkers| && checkers[i](attempt, reply) != Accept
    && forall j | 0 <= j < i :: checkers[j](attempt, reply) == Accept
  }

  /** The deciding checker asks for a retry, or raises what counts as a wish for one. */
  ghost predicate Wishes(d: Decorator, attempt: nat, reply: Reply) {
    exists i: nat :: Decides(d.checkers, attempt, reply, i)
      && match d.checkers[i](attempt, reply)
         case Retry => true
         case Raises(kind) => attempt < d.maxAttempts && kind in d.retryable
         case Accept => false
  }

  lemma {:induction false} FirstVerdictDecides(checkers: seq<Checker>, attempt: nat, reply: Reply)
    ensures FirstVerdict(checkers, attempt, reply) == Accept ==>
      forall i | 0 <= i < |checkers| :: checkers[i](attempt, reply) == Accept
    ensures forall i: nat | Decides(checkers, attempt, reply, i) ::
      checkers[i](attempt, reply) == FirstVerdict(checkers, attempt, reply)
    ensures FirstVerdict(checkers, attempt, reply) != Accept ==> exists i: nat :: Decides(checkers, attempt, reply, i)
  {
    if checkers == [] {
    } else {
      var rest := checkers[1..];
      FirstVerdictDecides(rest, attempt, reply);
      if checkers[0](attempt, reply) != Accept {
        assert Decides(checkers, attempt, reply, 0);
      } else {
        forall i: nat | Decides(checkers, attempt, reply, i)
          ensures checkers[i](attempt, reply) == FirstVerdict(checkers, attempt, reply)
        {
          assert Decides(rest, attempt, reply, i - 1);
        }
        if FirstVerdict(rest, attempt, reply) != Accept {
          var i: nat :| Decides(rest, attempt, reply, i);
          assert Decides(checkers, attempt, reply, i + 1);
        }
      }
    }
  }

  /** What the decorator's answer means in terms of its checkers: a retry exactly when the deciding
      checker wishes for one and attempts are left, an exception exactly when the deciding checker
      raises one that does not count as a wish, and the mark exactly when a wish came too late. */
  lemma DecoratedMeans(d: Decorator, attempt: nat, reply: Reply)
    ensures Decorated(d, attempt, reply) == Retry <==> Wishes(d, attempt, reply) && attempt < d.maxAttempts
    ensures forall kind: nat :: Decorated(d, attempt, reply) == Raises(kind) <==>
      && !Wishes(d, attempt, reply)
      && exists i: nat :: Decides(d.checkers, attempt, reply, i) && d.checkers[i](attempt, reply) == Raises(kind)
    ensures Marks(d, attempt, reply) <==>
      Wishes(d, attempt, reply) && attempt >= d.maxAttempts && reply.Response? && reply.hasMetadata
  {
    FirstVerdictDecides(d.checkers, attempt, reply);
    var first := FirstVerdict(d.checkers, attempt, reply);
    if first != Accept {
      var i: nat :| Decides(d.checkers, attempt, reply, i);
      assert d.checkers[i](attempt, reply) == first;
    }
  }

  /** The method that stands between the checkers and the handler. */
  method MaxAttemptsDecorator(d: Decorator, attempt: nat, reply: Reply) returns (v: Verdict, maxAttemptsReached: bool)
    ensures v == Retry <==> Wishes(d, attempt, reply) && attempt < d.maxAttempts
    ensures forall kind: nat :: v == Raises(kind) <==>
      && !Wishes(d, attempt, reply)
      && exists i: nat :: Decides(d.checkers, attempt, reply, i) && d.checkers[i](attempt, reply) == Raises(kind)
    ensures maxAttemptsReached <==>
      Wishes(d, attempt, reply) && attempt >= d.maxAttempts && reply.Response? && reply.hasMetadata
    ensures maxAttemptsReached ==> v == Accept
    ensures v == Decorated(d, attempt, reply) && maxAttemptsReached == Marks(d, attempt, reply)
  {
    DecoratedMeans(d, attempt, reply);
    var checked := MultiChecker(d.checkers, attempt, reply);
    maxAttemptsReached := false;
    if d.retryable != {} && attempt < d.maxAttempts && checked.Raises? && checked.kind in d.retryable {
      checked := Retry;
    }
    if checked == Retry && attempt >= d.maxAttempts {
      maxAttemptsReached := reply.Response? && reply.hasMetadata;
      return Accept, maxAttemptsReached;
    }
    return checked, maxAttemptsReached;
  }

  /** A checker built from a single policy never swallows an exception; one built from several
      swallows exactly the listed ones, and only before the last attempt. */
  lemma SwallowsExactly(policies: seq<Policy>, d: Decorator, attempt: nat, reply: Reply)
    requires d.retryable == if |policies| == 1 then {} else AllRetryable(policies)
    requires FirstVerdict(d.checkers, attempt, reply).Raises?
    ensures var kind := FirstVerdict(d.checkers, attempt, reply).kind;
            Decorated(d, attempt, reply) ==
              if |policies| != 1 && kind in AllRetryable(policies) && attempt < d.maxAttempts then Retry
              else Raises(kind)
  {
    if |policies| != 1 && FirstVerdict(d.checkers, attempt, reply).kind in AllRetryable(policies) {
      assert d.retryable != {};
    }
  }

  // ---- The redirector ----

  const KEY_ERROR: nat := 0
  const INVALID_REGION: nat := 1

  /** What the redirector meets when it looks for the region of a bucket after the k-th reply. */
  datatype Redirector = Redirector(
    first: bool,                                     // it is called before the retry handler
    head: nat -> Result<Option<string>, nat>,        // the region header of a HEAD on the bucket
    validRegion: string -> bool,
    resolve: nat -> Option<nat>                      // what resolving the new endpoint raises
  )

  datatype Env = Env(
    network: nat -> Reply,            // the reply to the k-th send
    decorator: Decorator,
    redirector: Option<Redirector>,
    operation: string,
    isArn: bool                       // the request is for an access point
  )

  predicate RedirectorFirst(env: Env) {
    env.redirector.Some? && env.redirector.value.first
  }

  /** A response that may come from the wrong region. */
  predicate IsRedirect(info: Info, operation: string) {
    || (info.code in {"301", "400"} && operation == "HeadObject")
    || (info.code == "AuthorizationHeaderMalformed" && info.region.Some?)
    || info.code == "PermanentRedirect"
    || (info.code in {"301", "400"} && operation == "HeadBucket" && info.headers.Some? && info.headers.value.Some?)
    || (info.status.Some? && info.status.value in {301, 302, 307})
    || (info.code == "IllegalLocationConstraintException" && operation != "CreateBucket")
  }

  /** The conditions one by one, and that there is no other. */
  lemma RedirectConditions(info: Info, operation: string)
    ensures info.status in {Some(301), Some(302), Some(307)} ==> IsRedirect(info, operation)
    ensures info.code == "PermanentRedirect" ==> IsRedirect(info, operation)
    ensures info.status !in {Some(301), Some(302), Some(307)} && info.code != "PermanentRedirect" ==>
      match info.code
      case "301" => IsRedirect(info, operation) <==> HeadMisdirected(info, operation)
      case "400" => IsRedirect(info, operation) <==> HeadMisdirected(info, operation)
      case "AuthorizationHeaderMalformed" => IsRedirect(info, operation) <==> info.region != None
      case "IllegalLocationConstraintException" => IsRedirect(info, operation) <==> operation != "CreateBucket"
      case _ => !IsRedirect(info, operation)
  {
  }

  /** A HEAD has no error body: on a bucket, the header must name the region. */
  predicate HeadMisdirected(info: Info, operation: string) {
    match operation
    case "HeadObject" => true
    case "HeadBucket" => info.headers !in {None, Some(None)}
    case _ => false
  }

  /** `get_bucket_region`: the header, else the error body, else a HEAD on the bucket. */
  function BucketRegion(r: Redirector, attempt: nat, info: Info): Result<Option<string>, nat> {
    if info.headers == None then Err(KEY_ERROR)
    else
      var region :=
        if info.headers.value.Some? then Ok(info.headers.value)
        else if info.region.Some? && info.region.value != "" then Ok(info.region)
        else r.head(attempt);
      if region.Ok? && region.value.Some? && !r.validRegion(region.value.value) then Err(INVALID_REGION) else region
  }

  /** The request's context, edited in place. */
  class RequestContext {
    var redirected: bool

    constructor ()
      ensures !redirected
    {
      redirected := false;
    }
  }

  /** What `redirect_from_error` answers, and whether it marks the request as redirected. */
  function RedirectAnswer(env: Env, attempt: nat, redirected: bool): Verdict {
    var reply := env.network(attempt);
    if env.redirector == None || reply.Exception? || env.isArn || redirected || !IsRedirect(reply.info, env.operation)
    then Accept
    else
      match BucketRegion(env.redirector.value, attempt, reply.info)
      case Err(kind) => Raises(kind)
      case Ok(None) => Accept
      case Ok(Some(_)) =>
        match env.redirector.value.resolve(attempt)
        case Some(kind) => Raises(kind)
        case None => Retry
  }

  /** The region that the redirector finds, in this order: the header, the error body unless it is
      empty, a HEAD on the bucket. */
  ghost predicate FindsRegion(r: Redirector, attempt: nat, info: Info, region: string) {
    && info.headers.Some? && r.validRegion(region)
    && (|| info.headers.value == Some(region)
        || (info.headers.value == None && info.region == Some(region) && region != "")
        || (info.headers.value == None && info.region in {None, Some("")} && r.head(attempt) == Ok(Some(region))))
  }

  /** The answer is a retry exactly for a response that looks redirected, not yet redirected and of
      no access point, whose new region is found and whose new endpoint resolves. */
  lemma RedirectsExactly(env: Env, attempt: nat, redirected: bool)
    ensures RedirectAnswer(env, attempt, redirected) == Retry <==>
      && env.redirector.Some? && env.network(attempt).Response? && !env.isArn && !redirected
      && IsRedirect(env.network(attempt).info, env.operation)
      && (exists region :: FindsRegion(env.redirector.value, attempt, env.network(attempt).info, region))
      && env.redirector.value.resolve(attempt) == None
  {
    if env.redirector.Some? && env.network(attempt).Response? {
      var r, info := env.redirector.value, env.network(attempt).info;
      var found := BucketRegion(r, attempt, info);
      if found.Ok? && found.value.Some? {
        assert FindsRegion(r, attempt, info, found.value.value);
      }
      forall region | FindsRegion(r, attempt, info, region) ensures found == Ok(Some(region)) {
      }
    }
  }

  method RedirectFromError(env: Env, attempt: nat, context: RequestContext) returns (v: Verdict)
    modifies context
    ensures v == RedirectAnswer(env, attempt, old(context.redirected))
    ensures context.redirected == (old(context.redirected) || v == Retry)
    ensures v != Accept ==> env.redirector.Some?
    ensures v != Accept ==>
      && !old(context.redirected) && !env.isArn && env.network(attempt).Response?
      && IsRedirect(env.network(attempt).info, env.operation)
    ensures v == Retry <==>
      && env.redirector.Some? && env.network(attempt).Response? && !env.isArn && !old(context.redirected)
      && IsRedirect(env.network(attempt).info, env.operation)
      && (exists region :: FindsRegion(env.redirector.value, attempt, env.network(attempt).info, region))
      && env.redirector.value.resolve(attempt) == None
  {
    RedirectsExactly(env, attempt, context.redirected);
    hide FindsRegion;
    var reply := env.network(attempt);
    if env.redirector == None || reply.Exception? {
      return Accept;
    }
    if env.isArn {
      return Accept;
    }
    if context.redirected {
      return Accept;
    }
    var info, r := reply.info, env.redirector.value;
    var isSpecialHeadObject := info.code in {"301", "400"} && env.operation == "HeadObject";
    var isSpecialHeadBucket := info.code in {"301", "400"} && env.operation == "HeadBucket"
                               && info.headers.Some? && info.headers.value.Some?;
    var isWrongSigningRegion := info.code == "AuthorizationHeaderMalformed" && info.region.Some?;
    var isRedirectStatus := info.status.Some? && info.status.value in {301, 302, 307};
    var isPermanentRedirect := info.code == "PermanentRedirect";
    var isOptInRegionRedirect := info.code == "IllegalLocationConstraintException" && env.operation != "CreateBucket";
    if !(isSpecialHeadObject || isWrongSigningRegion || isPermanentRedirect || isSpecialHeadBucket
         || isRedirectStatus || isOptInRegionRedirect) {
      return Accept;
    }
    var region := BucketRegion(r, attempt, info);
    if region.Err? {
      return Raises(region.error);
    }
    if region.value == None {
      return Accept;
    }
    var failure := r.resolve(attempt);
    if failure.Some? {
      return Raises(failure.value);
    }
    context.redirected := true;
    return Retry;
  }

  // ---- The loop ----

  /** `_needs_retry`: both handlers are asked, unless the first one raises; any wish wins. */
  function Decision(env: Env, attempt: nat, redirected: bool): Verdict {
    var handler := Decorated(env.decorator, attempt, env.network(attempt));
    var redirect := RedirectAnswer(env, attempt, redirected);
    var (first, second) := if RedirectorFirst(env) then (redirect, handler) else (handler, redirect);
    if first.Raises? then first
    else if second.Raises? then second
    else if first == Retry || second == Retry then Retry
    else Accept
  }

  /** Whether the request has been redirected before the k-th reply is judged. */
  ghost function RedirectedBefore(env: Env, k: nat): bool {
    exists j | 1 <= j < k :: RedirectAnswer(env, j, false) == Retry && RedirectorAsked(env, j)
  }

  ghost predicate RedirectorAsked(env: Env, j: nat) {
    RedirectorFirst(env) || !Decorated(env.decorator, j, env.network(j)).Raises?
  }

  /** The checkers wish for another send after this one, and attempts are left. */
  ghost predicate TriedAgain(env: Env, k: nat) {
    Wishes(env.decorator, k, env.network(k)) && k < env.decorator.maxAttempts
  }

  /** When a reply is answered with another send: the first handler that raises ends the loop, and
      else either wish is enough, that of the retry handler or that of the redirector. */
  lemma DecisionExactly(env: Env, attempt: nat, redirected: bool)
    ensures var handler := Decorated(env.decorator, attempt, env.network(attempt));
            var redirect := RedirectAnswer(env, attempt, redirected);
            var decision := Decision(env, attempt, redirected);
            && (!handler.Raises? && !redirect.Raises? ==>
                  (decision == Retry <==> TriedAgain(env, attempt) || redirect == Retry))
            && (decision == Accept <==> handler == Accept && redirect == Accept)
            && (decision.Raises? <==> handler.Raises? || redirect.Raises?)
            && (handler.Raises? && (!redirect.Raises? || !RedirectorFirst(env)) ==> decision == handler)
            && (redirect.Raises? && (!handler.Raises? || RedirectorFirst(env)) ==> decision == redirect)
  {
    DecoratedMeans(env.decorator, attempt, env.network(attempt));
  }

  /** Without a redirector only the checkers decide. */
  lemma WithoutRedirector(env: Env, attempt: nat, redirected: bool)
    requires env.redirector == None
    ensures Decision(env, attempt, redirected) == Retry <==> TriedAgain(env, attempt)
  {
    DecisionExactly(env, attempt, redirected);
    DecoratedMeans(env.decorator, attempt, env.network(attempt));
  }

  method NeedsRetry(env: Env, attempt: nat, context: RequestContext) returns (v: Verdict, marked: bool)
    modifies context
    ensures context.redirected ==> old(context.redirected) || env.redirector.Some?
    ensures !v.Raises? ==> marked == Marks(env.decorator, attempt, env.network(attempt))
    ensures v == Decision(env, attempt, old(context.redirected))
    ensures v == Retry && env.redirector == None ==> TriedAgain(env, attempt)
    ensures v != Retry && env.redirector == None ==> !TriedAgain(env, attempt)
    ensures context.redirected == (old(context.redirected)
              || (RedirectAnswer(env, attempt, old(context.redirected)) == Retry && RedirectorAsked(env, attempt)))
  {
    if env.redirector == None {
      WithoutRedirector(env, attempt, context.redirected);
    }
    hide Wishes;
    var handler, redirect;
    marked := false;
    if RedirectorFirst(env) {
      redirect := RedirectFromError(env, attempt, context);
      if redirect.Raises? {
        return redirect, marked;
      }
      handler, marked := MaxAttemptsDecorator(env.decorator, attempt, env.network(attempt));
      if handler.Raises? {
        return handler, marked;
      }
    } else {
      handler, marked := MaxAttemptsDecorator(env.decorator, attempt, env.network(attempt));
      if handler.Raises? {
        return handler, marked;
      }
      redirect := RedirectFromError(env, attempt, context);
      if redirect.Raises? {
        return redirect, marked;
      }
    }
    v := if handler == Retry || redirect == Retry then Retry else Accept;
  }

  /** Send number `k` happens: every earlier reply asked for a retry. */
  ghost predicate Reaches(env: Env, k: nat) {
    forall j | 1 <= j < k :: Decision(env, j, RedirectedBefore(env, j)) == Retry
  }

  datatype Metadata = Metadata(retryAttempts: nat, maxAttemptsReached: bool)

  datatype Sent = Returned(reply: Reply, metadata: Option<Metadata>) | Raised(kind: nat)

  function SendLimit(env: Env): nat {
    Max(1, env.decorator.maxAttempts) + if env.redirector.Some? then 1 else 0
  }

  /** The redirector answers with a retry at most once, so a send past the maximal number of
      attempts was asked for by it, and by nobody after that. */
  lemma SendsAreBounded(env: Env, k: nat)
    requires k >= 1 && Reaches(env, k)
    ensures k <= SendLimit(env)
    ensures k > Max(1, env.decorator.maxAttempts) ==> RedirectedBefore(env, k) && !RedirectedBefore(env, k - 1)
  {
    var m := Max(1, env.decorator.maxAttempts);
    if k > m {
      // the reply to send m wants a retry although the decorator does not: the redirector does
      assert Decision(env, m, RedirectedBefore(env, m)) == Retry;
      assert RedirectAnswer(env, m, RedirectedBefore(env, m)) == Retry && RedirectorAsked(env, m);
      assert !RedirectedBefore(env, m);
      if k > m + 1 {
        assert RedirectedBefore(env, m + 1);
        assert false;
      }
    }
  }

  /** `_send_request`: terminates, sends no more often than allowed, stops at the first reply
      nobody wants to retry, and records the number of retries in the response it returns. */
  method SendRequest(env: Env, context: RequestContext) returns (result: Sent, sends: nat)
    requires !context.redirected
    modifies context
    ensures 1 <= sends <= SendLimit(env)
    ensures Reaches(env, sends)
    ensures Decision(env, sends, RedirectedBefore(env, sends)) != Retry
    ensures Decision(env, sends, RedirectedBefore(env, sends)).Raises? ==>
      result == Raised(Decision(env, sends, RedirectedBefore(env, sends)).kind)
    ensures Decision(env, sends, RedirectedBefore(env, sends)) == Accept ==>
      match env.network(sends)
      case Exception(kind) => result == Raised(kind)
      case Response(_, hasMetadata, _) =>
        && result.Returned? && result.reply == env.network(sends)
        && (result.metadata.Some? <==> hasMetadata)
        && (hasMetadata ==>
              && result.metadata.value.retryAttempts == sends - 1
              && result.metadata.value.maxAttemptsReached == Marks(env.decorator, sends, env.network(sends)))
    ensures context.redirected ==> env.redirector.Some?
    // without a redirector it stops at the first reply that nobody wishes to retry, or at the last attempt
    ensures env.redirector == None ==> !TriedAgain(env, sends) && forall k | 1 <= k < sends :: TriedAgain(env, k)
  {
    hide TriedAgain, Decision, RedirectAnswer, Decorated, Marks, RedirectorAsked;
    var attempts := 1;
    var reply := env.network(attempts);
    var again, marked := NeedsRetry(env, attempts, context);
    while again == Retry
      invariant attempts >= 1 && reply == env.network(attempts)
      invariant Reaches(env, attempts)
      invariant again == Decision(env, attempts, RedirectedBefore(env, attempts))
      invariant !again.Raises? ==> marked == Marks(env.decorator, attempts, reply)
      invariant context.redirected == RedirectedBefore(env, attempts + 1)
      invariant context.redirected ==> env.redirector.Some?
      invariant env.redirector == None ==> (again == Retry <==> TriedAgain(env, attempts))
      invariant env.redirector == None ==> forall k | 1 <= k < attempts :: TriedAgain(env, k)
      decreases SendLimit(env) - attempts
    {
      SendsAreBounded(env, attempts + 1);
      attempts := attempts + 1;
      reply := env.network(attempts);
      again, marked := NeedsRetry(env, attempts, context);
    }
    sends := attempts;
    SendsAreBounded(env, sends);
    if again.Raises? {
      return Raised(again.kind), sends;
    }
    var metadata := None;
    if reply.Response? && reply.hasMetadata {
      var totalRetries: nat := attempts - 1;
      metadata := Some(Metadata(totalRetries, marked));
    }
    match reply {
      case Exception(kind) => return Raised(kind), sends;
      case Response(_, _, _) => return Returned(reply, metadata), sends;
    }
  }
}
