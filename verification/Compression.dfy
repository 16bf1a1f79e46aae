/**
 Two stateful message filters around an application: conditional GET for JSON lists inside,
 buffered gzip outside.  Each holds back the response start until the first body message
 decides how the response is rewritten.
 */
module Compression {
  import Base64
  import opened EntityTags
  import opened HeaderFields
  import opened Options
  import opened Text

  type Bytes = Base64.Bytes

  datatype Head = Head(status: int, fields: seq<Field>)

  datatype Message =
    | Start(head: Head)
    | Body(body: Bytes, more: bool)
    | Other(kind: string)

  /** Hashing and gzip are code outside this model; the settings are those of the middleware. */
  datatype Env = Env(
    hash: Bytes -> string,
    gzip: Bytes -> Bytes,
    gunzip: Bytes -> Bytes,
    prefixes: set<string>,   // compressible content types
    minimumSize: int)
  {
    ghost predicate Lawful() {
      && (forall b :: gunzip(gzip(b)) == b)
      && (forall b :: '"' !in hash(b) && ',' !in hash(b))
    }
  }

  /** What the two filters read from the request. */
  datatype Request = Request(conditional: bool, ifNoneMatch: string, gzip: bool)

  datatype Stage = Conditional(ifNoneMatch: string) | Gzip

  /** The closure variables of one `send_wrapper`. */
  datatype Filter = Filter(held: Option<Head>, passthrough: bool)

  const Idle := Filter(None, false)

  // ---------------------------------------------------------------------------
  // What each filter decides
  // ---------------------------------------------------------------------------

  function WeakTag(env: Env, body: Bytes): string {
    Render(EntityTag(true, env.hash(body)))
  }

  predicate ConditionalSkips(head: Head) {
    || head.status != 200
    || Has(head.fields, ETag)
    || Has(head.fields, CacheControl)
    || !("application/json" <= Get(head.fields, ContentType).GetOr(""))
  }

  predicate GzipSkips(env: Env, head: Head) {
    || Has(head.fields, ContentEncoding)
    || !(exists prefix :: prefix in env.prefixes && prefix <= Lower(Get(head.fields, ContentType).GetOr("")))
    || head.status == 204 || head.status == 304
  }

  /** The start message is forwarded at once and the whole response with it. */
  predicate Skips(env: Env, stage: Stage, head: Head) {
    match stage
    case Conditional(_) => ConditionalSkips(head)
    case Gzip => GzipSkips(env, head)
  }

  function Revalidation(etag: string): seq<Field> {
    [Field(ETag, etag), Field(CacheControl, "private, no-cache"), Field(Vary, "Accept-Encoding")]
  }

  function Tagged(fields: seq<Field>, etag: string): seq<Field> {
    Set(Set(fields, ETag, etag), CacheControl, "private, no-cache")
  }

  predicate FreshEnough(ifNoneMatch: string, etag: string) {
    ifNoneMatch != "" && EtagMatches(ifNoneMatch, etag)
  }

  function WeakenTag(fields: seq<Field>): seq<Field> {
    match Get(fields, ETag)
    case Some(tag) => if "W/" <= tag then fields else Set(fields, ETag, "W/" + tag)
    case None => fields
  }

  function Encoded(fields: seq<Field>, length: nat): seq<Field> {
    WeakenTag(Set(Set(AddVary(fields, "Accept-Encoding"), ContentEncoding, "gzip"), ContentLength, Decimal(length)))
  }

  function RewriteConditional(env: Env, ifNoneMatch: string, head: Head, body: Bytes): (Head, Bytes) {
    var etag := WeakTag(env, body);
    if FreshEnough(ifNoneMatch, etag) then (Head(304, Revalidation(etag)), [])
    else (head.(fields := Tagged(head.fields, etag)), body)
  }

  function RewriteGzip(env: Env, head: Head, body: Bytes): (Head, Bytes) {
    var compressed := env.gzip(body);
    if |body| < env.minimumSize then (head, body)
    else if |compressed| >= |body| then (head.(fields := AddVary(head.fields, "Accept-Encoding")), body)
    else (head.(fields := Encoded(head.fields, |compressed|)), compressed)
  }

  /** What a held start and the first body message become. */
  function Rewrite(env: Env, stage: Stage, head: Head, body: Bytes, more: bool): (Head, Bytes) {
    if more then (head, body)
    else match stage
      case Conditional(ifNoneMatch) => RewriteConditional(env, ifNoneMatch, head, body)
      case Gzip => RewriteGzip(env, head, body)
  }

  // ---------------------------------------------------------------------------
  // The filters as transducers
  // ---------------------------------------------------------------------------

  function Step(env: Env, stage: Stage, filter: Filter, message: Message): (Filter, seq<Message>) {
    match message
    case Start(head) =>
      if Skips(env, stage, head) then (filter.(passthrough := true), [message])
      else (filter.(held := Some(head)), [])
    case Body(body, more) =>
      if filter.passthrough || filter.held.None? then (filter, [message])
      else
        var (head, sent) := Rewrite(env, stage, filter.held.value, body, more);
        (Filter(None, true), [Start(head), Body(sent, more)])
    case Other(_) =>
      if stage.Gzip? && !filter.passthrough && filter.held.Some?
      then (Filter(None, true), [Start(filter.held.value), message])
      else (filter, [message])
  }

  function Run(env: Env, stage: Stage, filter: Filter, messages: seq<Message>): seq<Message>
    decreases messages
  {
    if messages == [] then []
    else
      var (next, out) := Step(env, stage, filter, messages[0]);
      out + Run(env, stage, next, messages[1..])
  }

  /** The whole stack: gzip around conditional GET, each only for requests it applies to. */
  function Respond(env: Env, request: Request, response: seq<Message>): seq<Message> {
    var inner := if request.conditional then Run(env, Conditional(request.ifNoneMatch), Idle, response) else response;
    if request.gzip then Run(env, Gzip, Idle, inner) else inner
  }

  // ---------------------------------------------------------------------------
  // The filters in place
  // ---------------------------------------------------------------------------

  class SendWrapper {
    const env: Env
    const stage: Stage
    var startMessage: Option<Head>
    var passthrough: bool

    ghost function State(): Filter
      reads this
    {
      Filter(startMessage, passthrough)
    }

    constructor (env: Env, stage: Stage)
      ensures this.env == env && this.stage == stage && State() == Idle
    {
      this.env, this.stage := env, stage;
      startMessage, passthrough := None, false;
    }

    /** One call of `send_wrapper`; `out` is what it sends on, in order. */
    method Send(message: Message) returns (out: seq<Message>)
      modifies this
      ensures (State(), out) == Step(env, stage, old(State()), message)
    {
      if message.Start? {
        if Skips(env, stage, message.head) {
          passthrough := true;
          return [message];
        }
        startMessage := Some(message.head);
        return [];
      }
      if passthrough || startMessage.None? || (message.Other? && stage.Conditional?) {
        return [message];
      }
      var pending := startMessage.value;
      startMessage := None;
      passthrough := true;
      if message.Other? || message.more {
        return [Start(pending), message];
      }
      match stage {
        case Conditional(ifNoneMatch) =>
          out := SendTagged(ifNoneMatch, pending, message.body);
        case Gzip =>
          out := SendCompressed(pending, message.body);
      }
    }

    method SendTagged(ifNoneMatch: string, pending: Head, body: Bytes) returns (out: seq<Message>)
      ensures var (head, sent) := RewriteConditional(env, ifNoneMatch, pending, body);
              out == [Start(head), Body(sent, false)]
    {
      var etag := WeakTag(env, body);
      var fields := Set(pending.fields, ETag, etag);
      fields := Set(fields, CacheControl, "private, no-cache");
      if ifNoneMatch != "" && EtagMatches(ifNoneMatch, etag) {
        return [Start(Head(304, Revalidation(etag))), Body([], false)];
      }
      return [Start(Head(pending.status, fields)), Body(body, false)];
    }

    method SendCompressed(pending: Head, body: Bytes) returns (out: seq<Message>)
      ensures var (head, sent) := RewriteGzip(env, pending, body);
              out == [Start(head), Body(sent, false)]
    {
      if |body| < env.minimumSize {
        return [Start(pending), Body(body, false)];
      }
      var compressed := env.gzip(body);
      var fields := AddVary(pending.fields, "Accept-Encoding");
      if |compressed| >= |body| {
        return [Start(Head(pending.status, fields)), Body(body, false)];
      }
      fields := Set(fields, ContentEncoding, "gzip");
      fields := Set(fields, ContentLength, Decimal(|compressed|));
      fields := WeakenTag(fields);
      return [Start(Head(pending.status, fields)), Body(compressed, false)];
    }
  }

  /** The state a filter is in after some messages. */
  function After(env: Env, stage: Stage, filter: Filter, messages: seq<Message>): Filter
    decreases messages
  {
    if messages == [] then filter else After(env, stage, Step(env, stage, filter, messages[0]).0, messages[1..])
  }

  lemma {:induction false} RunConcat(env: Env, stage: Stage, filter: Filter, a: seq<Message>, b: seq<Message>)
    ensures Run(env, stage, filter, a + b)
         == Run(env, stage, filter, a) + Run(env, stage, After(env, stage, filter, a), b)
    ensures After(env, stage, filter, a + b) == After(env, stage, After(env, stage, filter, a), b)
    decreases a
  {
    if a == [] {
      assert a + b == b;
    } else {
      assert (a + b)[1..] == a[1..] + b;
      RunConcat(env, stage, Step(env, stage, filter, a[0]).0, a[1..], b);
    }
  }

  lemma RunSingle(env: Env, stage: Stage, filter: Filter, message: Message)
    ensures Run(env, stage, filter, [message]) == Step(env, stage, filter, message).1
    ensures After(env, stage, filter, [message]) == Step(env, stage, filter, message).0
  {
    assert [message][1..] == [];
  }

  /** A wrapper receives messages one by one. */
  method Feed(wrapper: SendWrapper, messages: seq<Message>) returns (out: seq<Message>)
    modifies wrapper
    ensures wrapper.State() == After(wrapper.env, wrapper.stage, old(wrapper.State()), messages)
    ensures out == Run(wrapper.env, wrapper.stage, old(wrapper.State()), messages)
  {
    out := [];
    ghost var begin := wrapper.State();
    for i := 0 to |messages|
      invariant wrapper.State() == After(wrapper.env, wrapper.stage, begin, messages[..i])
      invariant out == Run(wrapper.env, wrapper.stage, begin, messages[..i])
    {
      RunConcat(wrapper.env, wrapper.stage, begin, messages[..i], [messages[i]]);
      RunSingle(wrapper.env, wrapper.stage, wrapper.State(), messages[i]);
      assert messages[..i + 1] == messages[..i] + [messages[i]];
      var sent := wrapper.Send(messages[i]);
      out := out + sent;
    }
    assert messages[..|messages|] == messages;
  }

  /** Gzip around conditional GET: whatever the inner wrapper sends goes to the outer one at once. */
  method ServeStacked(env: Env, ifNoneMatch: string, response: seq<Message>) returns (out: seq<Message>)
    ensures out == Respond(env, Request(true, ifNoneMatch, true), response)
  {
    var stage := Conditional(ifNoneMatch);
    var inner := new SendWrapper(env, stage);
    var outer := new SendWrapper(env, Gzip);
    out := [];
    for i := 0 to |response|
      invariant inner.State() == After(env, stage, Idle, response[..i])
      invariant outer.State() == After(env, Gzip, Idle, Run(env, stage, Idle, response[..i]))
      invariant out == Run(env, Gzip, Idle, Run(env, stage, Idle, response[..i]))
    {
      ghost var done := Run(env, stage, Idle, response[..i]);
      RunConcat(env, stage, Idle, response[..i], [response[i]]);
      RunSingle(env, stage, inner.State(), response[i]);
      assert response[..i + 1] == response[..i] + [response[i]];
      var sent := inner.Send(response[i]);
      RunConcat(env, Gzip, Idle, done, sent);
      var final := Feed(outer, sent);
      out := out + final;
    }
    assert response[..|response|] == response;
  }

  // ---------------------------------------------------------------------------
  // One filter on a whole response
  // ---------------------------------------------------------------------------

  ghost predicate NoStart(messages: seq<Message>) {
    forall i :: 0 <= i < |messages| ==> !messages[i].Start?
  }

  /** One start, then body messages of which exactly the last says that it is the last. */
  ghost predicate WellFormed(response: seq<Message>) {
    && |response| >= 2
    && response[0].Start?
    && (forall i :: 1 <= i < |response| ==> response[i].Body? && (response[i].more <==> i < |response| - 1))
  }

  lemma {:induction false} PassesThrough(env: Env, stage: Stage, filter: Filter, messages: seq<Message>)
    requires filter.passthrough && NoStart(messages)
    ensures Run(env, stage, filter, messages) == messages
  {
    if messages != [] {
      assert Step(env, stage, filter, messages[0]) == (filter, [messages[0]]);
      PassesThrough(env, stage, filter, messages[1..]);
    }
  }

  /** What one filter makes of the start and the first body message. */
  function Apply(env: Env, stage: Stage, head: Head, body: Bytes, more: bool): (Head, Bytes) {
    if Skips(env, stage, head) then (head, body) else Rewrite(env, stage, head, body, more)
  }

  /** Only the start and the first body message are rewritten; everything after is forwarded as it is. */
  lemma RewritesFrontOnly(env: Env, stage: Stage, head: Head, body: Bytes, more: bool, tail: seq<Message>)
    requires NoStart(tail)
    ensures var (newHead, newBody) := Apply(env, stage, head, body, more);
            Run(env, stage, Idle, [Start(head), Body(body, more)] + tail) == [Start(newHead), Body(newBody, more)] + tail
  {
    var response := [Start(head), Body(body, more)] + tail;
    var first := Step(env, stage, Idle, Start(head));
    var second := Step(env, stage, first.0, Body(body, more));
    assert response[1..] == [Body(body, more)] + tail;
    assert response[1..][1..] == tail;
    PassesThrough(env, stage, second.0, tail);
    assert Run(env, stage, Idle, response) == first.1 + (second.1 + tail);
  }

  lemma {:induction false} OthersPassHeldStart(env: Env, ifNoneMatch: string, head: Head, others: seq<Message>, rest: seq<Message>)
    requires forall i :: 0 <= i < |others| ==> others[i].Other?
    ensures var stage, held := Conditional(ifNoneMatch), Filter(Some(head), false);
            Run(env, stage, held, others + rest) == others + Run(env, stage, held, rest)
  {
    if others == [] {
      assert others + rest == rest;
    } else {
      assert (others + rest)[1..] == others[1..] + rest;
      OthersPassHeldStart(env, ifNoneMatch, head, others[1..], rest);
    }
  }

  /**
   Messages of other kinds between the start and the first body: conditional GET forwards them
   ahead of the start it holds, so its output begins with the start exactly when there are none
   of them or the start was not held back.
   */
  lemma ConditionalReorders(env: Env, ifNoneMatch: string, head: Head, others: seq<Message>, body: Bytes, more: bool)
    requires forall i :: 0 <= i < |others| ==> others[i].Other?
    ensures var out := Run(env, Conditional(ifNoneMatch), Idle, [Start(head)] + (others + [Body(body, more)]));
            out != [] && (out[0].Start? <==> others == [] || ConditionalSkips(head))
  {
    var stage := Conditional(ifNoneMatch);
    var response := [Start(head)] + (others + [Body(body, more)]);
    assert response[1..] == others + [Body(body, more)];
    var first := Step(env, stage, Idle, Start(head));
    if ConditionalSkips(head) {
      assert first.1 == [Start(head)];
    } else {
      assert first == (Filter(Some(head), false), []);
      OthersPassHeldStart(env, ifNoneMatch, head, others, [Body(body, more)]);
      assert Run(env, stage, Filter(Some(head), false), [Body(body, more)])[0].Start?;
    }
  }

  /** Gzip gives the start up, unchanged, to the first message of another kind. */
  lemma GzipKeepsOrder(env: Env, head: Head, other: Message, tail: seq<Message>)
    requires other.Other? && NoStart(tail)
    ensures Run(env, Gzip, Idle, [Start(head), other] + tail) == [Start(head), other] + tail
  {
    var response := [Start(head), other] + tail;
    var first := Step(env, Gzip, Idle, Start(head));
    var second := Step(env, Gzip, first.0, other);
    assert response[1..] == [other] + tail;
    assert response[1..][1..] == tail;
    PassesThrough(env, Gzip, second.0, tail);
    assert Run(env, Gzip, Idle, response) == first.1 + (second.1 + tail);
  }

  // ---------------------------------------------------------------------------
  // What the rewritten front means
  // ---------------------------------------------------------------------------

  ghost predicate KeepsAllBut(before: seq<Field>, after: seq<Field>, names: set<Name>) {
    forall name :: name !in names ==> Values(after, name) == Values(before, name)
  }

  lemma SetKeeps(fields: seq<Field>, name: Name, value: string)
    ensures Values(Set(fields, name, value), name) == [value]
    ensures KeepsAllBut(fields, Set(fields, name, value), {name})
  {
    ValuesOfSet(fields, name, value, name);
    forall asked | asked != name ensures Values(Set(fields, name, value), asked) == Values(fields, asked) {
      ValuesOfSet(fields, name, value, asked);
    }
  }

  lemma TaggedMeans(fields: seq<Field>, etag: string)
    ensures Values(Tagged(fields, etag), ETag) == [etag]
    ensures Values(Tagged(fields, etag), CacheControl) == ["private, no-cache"]
    ensures KeepsAllBut(fields, Tagged(fields, etag), {ETag, CacheControl})
  {
    var once := Set(fields, ETag, etag);
    SetKeeps(fields, ETag, etag);
    SetKeeps(once, CacheControl, "private, no-cache");
    assert Values(Tagged(fields, etag), ETag) == Values(once, ETag);
  }

  /** The first `Vary` value is extended; every further `Vary` field is dropped. */
  lemma AddVaryMeans(fields: seq<Field>, value: string)
    ensures KeepsAllBut(fields, AddVary(fields, value), {Vary})
    ensures Values(AddVary(fields, value), Vary)
         == [if Has(fields, Vary) then Values(fields, Vary)[0] + ", " + value else value]
  {
    var vary := if Has(fields, Vary) then Values(fields, Vary)[0] + ", " + value else value;
    SetKeeps(fields, Vary, vary);
  }

  lemma WeakenTagMeans(fields: seq<Field>)
    ensures KeepsAllBut(fields, WeakenTag(fields), {ETag})
    ensures Has(WeakenTag(fields), ETag) <==> Has(fields, ETag)
    ensures Has(fields, ETag) ==>
              var now, was := Get(WeakenTag(fields), ETag).value, Get(fields, ETag).value;
              "W/" <= now && RemoveWeak(now) == RemoveWeak(was)
  {
    if Has(fields, ETag) && !("W/" <= Get(fields, ETag).value) {
      SetKeeps(fields, ETag, "W/" + Get(fields, ETag).value);
    }
  }

  /** The header of a gzip body of `length` bytes. */
  ghost predicate DescribesGzip(before: seq<Field>, after: seq<Field>, length: nat) {
    && Values(after, ContentEncoding) == ["gzip"]
    && Values(after, ContentLength) == [Decimal(length)]
    && KeepsAllBut(before, after, {ContentEncoding, ContentLength, Vary, ETag})
  }

  /** A tag stays the same under weak comparison, and is weak once the body is encoded. */
  ghost predicate WeakensTag(before: seq<Field>, after: seq<Field>) {
    match (Get(before, ETag), Get(after, ETag))
    case (None, None) => true
    case (Some(was), Some(now)) => "W/" <= now && RemoveWeak(now) == RemoveWeak(was)
    case _ => false
  }

  lemma EncodedMeans(fields: seq<Field>, length: nat)
    ensures DescribesGzip(fields, Encoded(fields, length), length)
    ensures WeakensTag(fields, Encoded(fields, length))
  {
    var varied := AddVary(fields, "Accept-Encoding");
    var typed := Set(varied, ContentEncoding, "gzip");
    var sized := Set(typed, ContentLength, Decimal(length));
    AddVaryMeans(fields, "Accept-Encoding");
    SetKeeps(varied, ContentEncoding, "gzip");
    SetKeeps(typed, ContentLength, Decimal(length));
    WeakenTagMeans(sized);
    assert Values(Encoded(fields, length), ContentEncoding) == Values(typed, ContentEncoding);
    assert Values(sized, ETag) == Values(fields, ETag);
  }

  // ---------------------------------------------------------------------------
  // The whole stack on a well-formed response
  // ---------------------------------------------------------------------------

  function FirstValue(fields: seq<Field>, name: Name): string {
    if Values(fields, name) == [] then "" else Values(fields, name)[0]
  }

  /** A 200 JSON response that says nothing about caching. */
  predicate CacheableJson(head: Head) {
    && head.status == 200 && Values(head.fields, ETag) == [] && Values(head.fields, CacheControl) == []
    && "application/json" <= FirstValue(head.fields, ContentType)
  }

  /** A response that is not encoded yet, may have a body, and is of a compressible type. */
  predicate Compressible(env: Env, head: Head) {
    && Values(head.fields, ContentEncoding) == [] && head.status != 204 && head.status != 304
    && exists prefix :: prefix in env.prefixes && prefix <= Lower(FirstValue(head.fields, ContentType))
  }

  /** What the filters let through at once is what they do not apply to. */
  lemma SkipsIff(env: Env, head: Head)
    ensures ConditionalSkips(head) <==> !CacheableJson(head)
    ensures GzipSkips(env, head) <==> !Compressible(env, head)
  {
    assert Get(head.fields, ContentType).GetOr("") == FirstValue(head.fields, ContentType);
  }

  /** Conditional GET puts its tag on the response: a complete 200 JSON response without cache headers. */
  predicate Tags(request: Request, response: seq<Message>)
    requires |response| >= 2 && response[0].Start?
  {
    request.conditional && |response| == 2 && CacheableJson(response[0].head)
  }

  predicate Revalidates(env: Env, request: Request, response: seq<Message>)
    requires |response| >= 2 && response[0].Start? && response[1].Body?
  {
    Tags(request, response) && FreshEnough(request.ifNoneMatch, WeakTag(env, response[1].body))
  }

  predicate Shrinks(env: Env, request: Request, response: seq<Message>)
    requires |response| >= 2 && response[0].Start? && response[1].Body?
  {
    && request.gzip && |response| == 2 && Compressible(env, response[0].head)
    && env.minimumSize <= |response[1].body|
    && |env.gzip(response[1].body)| < |response[1].body|
  }

  /** The stack on the start and the first body message alone. */
  function ApplyBoth(env: Env, request: Request, head: Head, body: Bytes, more: bool): (Head, Bytes) {
    var (h, b) := if request.conditional then Apply(env, Conditional(request.ifNoneMatch), head, body, more) else (head, body);
    if request.gzip then Apply(env, Gzip, h, b, more) else (h, b)
  }

  lemma RespondRewritesFront(env: Env, request: Request, head: Head, body: Bytes, more: bool, tail: seq<Message>)
    requires NoStart(tail)
    ensures var (newHead, newBody) := ApplyBoth(env, request, head, body, more);
            Respond(env, request, [Start(head), Body(body, more)] + tail) == [Start(newHead), Body(newBody, more)] + tail
  {
    var stage := Conditional(request.ifNoneMatch);
    var (h, b) := if request.conditional then Apply(env, stage, head, body, more) else (head, body);
    RewritesFrontOnly(env, stage, head, body, more, tail);
    RewritesFrontOnly(env, Gzip, h, b, more, tail);
  }

  /** Tagging changes nothing that gzip looks at. */
  lemma TaggingIsInvisibleToGzip(env: Env, head: Head, etag: string)
    ensures GzipSkips(env, head.(fields := Tagged(head.fields, etag))) <==> GzipSkips(env, head)
  {
    TaggedMeans(head.fields, etag);
  }

  /** Conditional GET on a complete response that is not answered with 304. */
  function TaggedHead(env: Env, request: Request, head: Head, body: Bytes): Head {
    if request.conditional && CacheableJson(head) then head.(fields := Tagged(head.fields, WeakTag(env, body))) else head
  }

  lemma CompleteResponse(env: Env, request: Request, response: seq<Message>)
    requires WellFormed(response) && |response| == 2
    ensures var head, body := response[0].head, response[1].body;
            ApplyBoth(env, request, head, body, false) ==
            if Revalidates(env, request, response) then (Head(304, Revalidation(WeakTag(env, body))), [])
            else
              var tagged := TaggedHead(env, request, head, body);
              if request.gzip && Compressible(env, head) then RewriteGzip(env, tagged, body) else (tagged, body)
  {
    var head, etag := response[0].head, WeakTag(env, response[1].body);
    TaggingIsInvisibleToGzip(env, head, etag);
    SkipsIff(env, head);
  }

  /** The response is one gzip body that decodes to the original body. */
  ghost predicate IsGzipOf(env: Env, original: seq<Message>, out: seq<Message>)
    requires WellFormed(original) && WellFormed(out)
  {
    && |out| == |original| == 2
    && out[0].head.status == original[0].head.status
    && env.gunzip(out[1].body) == original[1].body
    && Values(original[0].head.fields, ContentEncoding) == []
    && Values(out[0].head.fields, ContentEncoding) == ["gzip"]
    && Values(out[0].head.fields, ContentLength) == [Decimal(|out[1].body|)]
    && KeepsAllBut(original[0].head.fields, out[0].head.fields, {ContentEncoding, ContentLength, Vary, ETag, CacheControl})
  }

  /** The same body messages, one by one, under the same status. */
  ghost predicate IsSameStream(original: seq<Message>, out: seq<Message>)
    requires WellFormed(original) && WellFormed(out)
  {
    && out[1..] == original[1..]
    && out[0].head.status == original[0].head.status
    && KeepsAllBut(original[0].head.fields, out[0].head.fields, {Vary, ETag, CacheControl})
  }

  /** An empty 304 that carries the tag of the suppressed body. */
  ghost predicate IsNotModified(env: Env, original: seq<Message>, out: seq<Message>)
    requires WellFormed(original) && WellFormed(out)
  {
    && out[0].head.status == 304
    && out[1..] == [Body([], false)]
    && Values(out[0].head.fields, ETag) == [WeakTag(env, original[1].body)]
    && Values(out[0].head.fields, CacheControl) == ["private, no-cache"]
  }

  lemma RespondParts(env: Env, request: Request, response: seq<Message>)
    requires WellFormed(response)
    ensures var out := Respond(env, request, response);
            var (head, body) := ApplyBoth(env, request, response[0].head, response[1].body, response[1].more);
            WellFormed(out) && |out| == |response| && out[0].head == head && out[1].body == body && out[2..] == response[2..]
  {
    var tail := response[2..];
    assert response == [Start(response[0].head), Body(response[1].body, response[1].more)] + tail;
    RespondRewritesFront(env, request, response[0].head, response[1].body, response[1].more, tail);
    var out := Respond(env, request, response);
    assert out[2..] == tail;
    forall i | 1 <= i < |out| ensures out[i].Body? && out[i].more == response[i].more {
      if i > 1 {
        assert out[i] == tail[i - 2];
      }
    }
  }

  lemma StreamIsUntouched(env: Env, request: Request, response: seq<Message>)
    requires WellFormed(response) && |response| > 2
    ensures Respond(env, request, response) == response
  {
    RespondParts(env, request, response);
    assert response[1].more;
    var out := Respond(env, request, response);
    assert out == [out[0], out[1]] + out[2..];
    assert response == [response[0], response[1]] + response[2..];
  }

  lemma TaggedHeadMeans(env: Env, request: Request, head: Head, body: Bytes)
    ensures var tagged := TaggedHead(env, request, head, body);
            && tagged.status == head.status
            && KeepsAllBut(head.fields, tagged.fields, {ETag, CacheControl})
            && (request.conditional && CacheableJson(head) ==>
                  Values(tagged.fields, ETag) == [WeakTag(env, body)] && Values(tagged.fields, CacheControl) == ["private, no-cache"])
  {
    TaggedMeans(head.fields, WeakTag(env, body));
  }

  /** Every response comes out as a 304, as a gzip of itself, or as the same stream, each under its exact condition. */
  lemma ResponsePreserved(env: Env, request: Request, response: seq<Message>)
    requires env.Lawful() && WellFormed(response)
    ensures WellFormed(Respond(env, request, response))
    ensures var out := Respond(env, request, response);
            if Revalidates(env, request, response) then IsNotModified(env, response, out)
            else if Shrinks(env, request, response) then IsGzipOf(env, response, out)
            else IsSameStream(response, out)
  {
    RespondParts(env, request, response);
    if |response| > 2 {
      StreamIsUntouched(env, request, response);
    } else if Revalidates(env, request, response) {
      NotModifiedCase(env, request, response);
    } else if Shrinks(env, request, response) {
      GzipCase(env, request, response);
    } else {
      SameCase(env, request, response);
    }
  }

  lemma NotModifiedCase(env: Env, request: Request, response: seq<Message>)
    requires WellFormed(response) && |response| == 2 && Revalidates(env, request, response)
    ensures WellFormed(Respond(env, request, response))
    ensures IsNotModified(env, response, Respond(env, request, response))
  {
    RespondParts(env, request, response);
    CompleteResponse(env, request, response);
    RevalidationMeans(WeakTag(env, response[1].body));
    assert Respond(env, request, response)[1..] == [Body([], false)];
  }

  lemma GzipCase(env: Env, request: Request, response: seq<Message>)
    requires env.Lawful() && WellFormed(response) && |response| == 2
    requires !Revalidates(env, request, response) && Shrinks(env, request, response)
    ensures WellFormed(Respond(env, request, response))
    ensures IsGzipOf(env, response, Respond(env, request, response))
  {
    var head, body := response[0].head, response[1].body;
    var tagged := TaggedHead(env, request, head, body);
    RespondParts(env, request, response);
    CompleteResponse(env, request, response);
    TaggedHeadMeans(env, request, head, body);
    EncodedMeans(tagged.fields, |env.gzip(body)|);
  }

  lemma SameCase(env: Env, request: Request, response: seq<Message>)
    requires WellFormed(response) && |response| == 2
    requires !Revalidates(env, request, response) && !Shrinks(env, request, response)
    ensures WellFormed(Respond(env, request, response))
    ensures IsSameStream(response, Respond(env, request, response))
  {
    var head, body := response[0].head, response[1].body;
    var tagged := TaggedHead(env, request, head, body);
    RespondParts(env, request, response);
    CompleteResponse(env, request, response);
    TaggedHeadMeans(env, request, head, body);
    AddVaryMeans(tagged.fields, "Accept-Encoding");
    assert Respond(env, request, response)[1..] == response[1..];
  }

  lemma RevalidationMeans(etag: string)
    ensures Values(Revalidation(etag), ETag) == [etag]
    ensures Values(Revalidation(etag), CacheControl) == ["private, no-cache"]
  {
    var fields := Revalidation(etag);
    assert Values(fields[1..][1..], ETag) == [] by { assert fields[1..][1..][1..] == []; }
    assert Values(fields[1..][1..], CacheControl) == [] by { assert fields[1..][1..][1..] == []; }
  }

  // ---------------------------------------------------------------------------
  // Revalidation
  // ---------------------------------------------------------------------------

  /** A tagged response carries the tag of its own body, compressed or not. */
  lemma TagSurvivesGzip(env: Env, request: Request, response: seq<Message>)
    requires WellFormed(response) && Tags(request, response)
    ensures WellFormed(Respond(env, request, response))
    ensures Get(Respond(env, request, response)[0].head.fields, ETag) == Some(WeakTag(env, response[1].body))
  {
    var head, body := response[0].head, response[1].body;
    RespondParts(env, request, response);
    CompleteResponse(env, request, response);
    if Revalidates(env, request, response) {
      RevalidationMeans(WeakTag(env, body));
    } else {
      var tagged := TaggedHead(env, request, head, body);
      TaggedHeadMeans(env, request, head, body);
      AddVaryMeans(tagged.fields, "Accept-Encoding");
      WeakTagStays(env, tagged.fields, body, |env.gzip(body)|);
    }
  }

  /** Compression makes the application's own tag weak and leaves it the same under weak comparison. */
  lemma OwnTagIsWeakened(env: Env, request: Request, response: seq<Message>)
    requires WellFormed(response) && !Tags(request, response) && Shrinks(env, request, response)
    ensures WellFormed(Respond(env, request, response))
    ensures WeakensTag(response[0].head.fields, Respond(env, request, response)[0].head.fields)
  {
    var head, body := response[0].head, response[1].body;
    RespondParts(env, request, response);
    CompleteResponse(env, request, response);
    EncodedMeans(head.fields, |env.gzip(body)|);
  }

  lemma WeakTagStays(env: Env, fields: seq<Field>, body: Bytes, length: nat)
    requires Values(fields, ETag) == [WeakTag(env, body)]
    ensures Get(Encoded(fields, length), ETag) == Some(WeakTag(env, body))
  {
    var varied := AddVary(fields, "Accept-Encoding");
    var typed := Set(varied, ContentEncoding, "gzip");
    var sized := Set(typed, ContentLength, Decimal(length));
    AddVaryMeans(fields, "Accept-Encoding");
    SetKeeps(varied, ContentEncoding, "gzip");
    SetKeeps(typed, ContentLength, Decimal(length));
    assert Values(sized, ETag) == Values(fields, ETag);
    assert "W/" <= WeakTag(env, body);
  }

  /**
   A client that keeps the tag of one answer and sends it with the next request gets the empty
   304 exactly when the bodies have the same hash.
   */
  lemma RevalidationRoundTrip(env: Env, first: Request, before: seq<Message>, second: Request, now: seq<Message>)
    requires env.Lawful() && WellFormed(before) && WellFormed(now)
    requires Tags(first, before) && Tags(second, now)
    requires WellFormed(Respond(env, first, before))
    requires Some(second.ifNoneMatch) == Get(Respond(env, first, before)[0].head.fields, ETag)
    ensures WellFormed(Respond(env, second, now))
    ensures Respond(env, second, now)[0].head.status == 304 <==> env.hash(before[1].body) == env.hash(now[1].body)
  {
    TagSurvivesGzip(env, first, before);
    var sent := EntityTag(true, env.hash(before[1].body));
    var own := EntityTag(true, env.hash(now[1].body));
    var items := [Item("", sent, "")];
    assert Header(items) == Render(sent);
    MatchesIsWeakComparison(items, own);
    assert Revalidates(env, second, now) <==> items[0].tag.value == own.value;
    ResponsePreserved(env, second, now);
    assert now[0].head.status == 200;
  }

  lemma HeaderIsNotEmpty(items: seq<Item>)
    requires items != [] && forall i :: 0 <= i < |items| ==> WellFormedItem(items[i])
    ensures Header(items) != ""
  {
    HeaderIsNotStar(items);
  }

  /** A taggable response is answered with 304 exactly when the request lists a tag that is weakly equal to that of its body. */
  lemma NotModifiedIffListed(env: Env, request: Request, response: seq<Message>, items: seq<Item>)
    requires env.Lawful() && WellFormed(response) && Tags(request, response)
    requires items != [] && forall i :: 0 <= i < |items| ==> WellFormedItem(items[i])
    requires request.ifNoneMatch == Header(items)
    ensures WellFormed(Respond(env, request, response))
    ensures Respond(env, request, response)[0].head.status == 304
       <==> exists i :: 0 <= i < |items| && items[i].tag.value == env.hash(response[1].body)
  {
    HeaderIsNotEmpty(items);
    MatchesIsWeakComparison(items, EntityTag(true, env.hash(response[1].body)));
    ResponsePreserved(env, request, response);
    assert response[0].head.status == 200;
  }

  // ---------------------------------------------------------------------------
  // Vary
  // ---------------------------------------------------------------------------

  /** Several fields of one name mean their values joined by commas (section 5.3 of RFC 9110). */
  function Joined(values: seq<string>): string {
    if values == [] then ""
    else if |values| == 1 then values[0]
    else Joined(values[..|values| - 1]) + ", " + values[|values| - 1]
  }

  /** The `Vary` of the response is unchanged, or extended by `Accept-Encoding`. */
  predicate KeepsVary(before: seq<Field>, after: seq<Field>) {
    || Values(after, Vary) == Values(before, Vary)
    || Joined(Values(after, Vary)) == Joined(Values(before, Vary) + ["Accept-Encoding"])
  }

  /** Gzip considers the body and so edits the head, whether or not it then compresses. */
  predicate GzipEdits(env: Env, request: Request, response: seq<Message>)
    requires |response| >= 2 && response[0].Start? && response[1].Body?
  {
    request.gzip && |response| == 2 && Compressible(env, response[0].head) && env.minimumSize <= |response[1].body|
  }

  lemma JoinedSnoc(values: seq<string>, last: string)
    ensures Joined(values + [last]) == if values == [] then last else Joined(values) + ", " + last
  {
    assert (values + [last])[..|values|] == values;
  }

  lemma {:induction false} JoinedIsLong(values: seq<string>)
    requires values != []
    ensures |Joined(values)| >= |values[0]| + 2 * (|values| - 1)
  {
    if |values| > 1 {
      JoinedIsLong(values[..|values| - 1]);
    }
  }

  /** Extending the first value only keeps the meaning exactly when there is no second one. */
  lemma FirstOnlyIffSingle(before: seq<string>, after: seq<string>)
    requires after == EditedVary(before)
    ensures (after == before || Joined(after) == Joined(before + ["Accept-Encoding"])) <==> |before| <= 1
  {
    JoinedSnoc(before, "Accept-Encoding");
    if before != [] {
      JoinedIsLong(before);
      assert |after[0]| > |before[0]|;
    }
  }

  lemma EncodedVary(fields: seq<Field>, length: nat)
    ensures Values(Encoded(fields, length), Vary) == Values(AddVary(fields, "Accept-Encoding"), Vary)
  {
    var varied := AddVary(fields, "Accept-Encoding");
    var typed := Set(varied, ContentEncoding, "gzip");
    var sized := Set(typed, ContentLength, Decimal(length));
    SetKeeps(varied, ContentEncoding, "gzip");
    SetKeeps(typed, ContentLength, Decimal(length));
    WeakenTagMeans(sized);
  }

  /** What an edit makes of the `Vary` values. */
  function EditedVary(before: seq<string>): seq<string> {
    [if before == [] then "Accept-Encoding" else before[0] + ", " + "Accept-Encoding"]
  }

  lemma RewriteGzipVary(env: Env, head: Head, body: Bytes)
    ensures Values(RewriteGzip(env, head, body).0.fields, Vary)
         == if |body| < env.minimumSize then Values(head.fields, Vary) else EditedVary(Values(head.fields, Vary))
  {
    AddVaryMeans(head.fields, "Accept-Encoding");
    EncodedVary(head.fields, |env.gzip(body)|);
  }

  /** The `Vary` values of a complete response that is not answered with 304. */
  lemma CompleteVary(env: Env, request: Request, response: seq<Message>)
    requires WellFormed(response) && |response| == 2 && !Revalidates(env, request, response)
    ensures WellFormed(Respond(env, request, response))
    ensures Values(Respond(env, request, response)[0].head.fields, Vary)
         == if GzipEdits(env, request, response) then EditedVary(Values(response[0].head.fields, Vary))
            else Values(response[0].head.fields, Vary)
  {
    var head, body := response[0].head, response[1].body;
    var tagged := TaggedHead(env, request, head, body);
    RespondParts(env, request, response);
    CompleteResponse(env, request, response);
    TaggedHeadMeans(env, request, head, body);
    assert Values(tagged.fields, Vary) == Values(head.fields, Vary);
    RewriteGzipVary(env, tagged, body);
  }

  /** A 304 carries a `Vary` of its own, whatever the response had. */
  lemma NotModifiedVary(env: Env, request: Request, response: seq<Message>)
    requires WellFormed(response) && |response| == 2 && Revalidates(env, request, response)
    ensures WellFormed(Respond(env, request, response))
    ensures Values(Respond(env, request, response)[0].head.fields, Vary) == ["Accept-Encoding"]
  {
    RespondParts(env, request, response);
    CompleteResponse(env, request, response);
    var fields := Revalidation(WeakTag(env, response[1].body));
    assert fields[1..][1..][1..] == [];
    assert Values(fields[1..][1..], Vary) == ["Accept-Encoding"];
    assert Values(fields[1..], Vary) == ["Accept-Encoding"];
  }

  /** `Accept-Encoding` alone keeps the meaning of nothing and of itself. */
  lemma AloneIff(before: seq<string>)
    ensures (["Accept-Encoding"] == before || Joined(["Accept-Encoding"]) == Joined(before + ["Accept-Encoding"]))
       <==> before == [] || before == ["Accept-Encoding"]
  {
    JoinedSnoc(before, "Accept-Encoding");
    if before != [] {
      assert |Joined(before + ["Accept-Encoding"])| > |"Accept-Encoding"|;
    }
  }

  /**
   Which responses keep their `Vary`.  An answer with 304 replaces it, so only an absent one or
   `Accept-Encoding` alone survives; any other answer keeps it exactly when there is at most one
   such field or gzip does not edit the head.
   */
  lemma VaryKeptIff(env: Env, request: Request, response: seq<Message>)
    requires WellFormed(response)
    ensures WellFormed(Respond(env, request, response))
    ensures var before := Values(response[0].head.fields, Vary);
            KeepsVary(response[0].head.fields, Respond(env, request, response)[0].head.fields)
            <==> (if Revalidates(env, request, response) then before == [] || before == ["Accept-Encoding"]
                  else |before| <= 1 || !GzipEdits(env, request, response))
  {
    var before := Values(response[0].head.fields, Vary);
    if |response| > 2 {
      StreamIsUntouched(env, request, response);
    } else if Revalidates(env, request, response) {
      NotModifiedVary(env, request, response);
      AloneIff(before);
    } else {
      CompleteVary(env, request, response);
      if GzipEdits(env, request, response) {
        FirstOnlyIffSingle(before, Values(Respond(env, request, response)[0].head.fields, Vary));
      }
    }
  }

  // Concrete inputs

  /** A response under the fields `Vary: Origin` and `Vary: Cookie` loses the second. */
  lemma SecondVaryIsLost(env: Env, kind: string, body: Bytes)
    requires kind in env.prefixes && Lower(kind) == kind && env.minimumSize <= |body|
    ensures var fields := [Field(ContentType, kind), Field(Vary, "Origin"), Field(Vary, "Cookie")];
            var out := Respond(env, Request(false, "", true), [Start(Head(200, fields)), Body(body, false)]);
            WellFormed(out) && Values(out[0].head.fields, Vary) == EditedVary(["Origin"])
  {
    var fields := [Field(ContentType, kind), Field(Vary, "Origin"), Field(Vary, "Cookie")];
    var head := Head(200, fields);
    var response := [Start(head), Body(body, false)];
    ThreeFields(kind, "Origin", "Cookie");
    assert Compressible(env, head) by { assert kind <= Lower(FirstValue(fields, ContentType)); }
    CompleteVary(env, Request(false, "", true), response);
  }

  /** A JSON list under `Vary: Origin`, asked for with `If-None-Match: *`, is answered with 304 and without `Origin`. */
  lemma NotModifiedLosesVary(env: Env, gzip: bool, body: Bytes)
    ensures var fields := [Field(ContentType, "application/json"), Field(Vary, "Origin")];
            var out := Respond(env, Request(true, "*", gzip), [Start(Head(200, fields)), Body(body, false)]);
            && WellFormed(out) && out[0].head.status == 304
            && Values(out[0].head.fields, Vary) == ["Accept-Encoding"]
  {
    var fields := [Field(ContentType, "application/json"), Field(Vary, "Origin")];
    var request, response := Request(true, "*", gzip), [Start(Head(200, fields)), Body(body, false)];
    TwoFields("application/json", "Origin");
    assert Tags(request, response);
    StarMatches("", "", WeakTag(env, body));
    assert "" + "*" + "" == "*";
    NotModifiedVary(env, request, response);
    RespondParts(env, request, response);
    CompleteResponse(env, request, response);
  }

  lemma TwoFields(kind: string, vary: string)
    ensures var fields := [Field(ContentType, kind), Field(Vary, vary)];
            && Values(fields, ContentType) == [kind]
            && Values(fields, ETag) == [] && Values(fields, CacheControl) == []
  {
    var fields := [Field(ContentType, kind), Field(Vary, vary)];
    forall name ensures Values(fields, name) == ValueIf(fields[0], name) + ValueIf(fields[1], name) {
      assert fields[1..][1..] == [];
      assert Values(fields[1..], name) == ValueIf(fields[1], name);
    }
  }

  lemma ThreeFields(kind: string, first: string, second: string)
    ensures var fields := [Field(ContentType, kind), Field(Vary, first), Field(Vary, second)];
            && Values(fields, Vary) == [first, second]
            && Values(fields, ContentType) == [kind] && Values(fields, ContentEncoding) == []
  {
    var fields := [Field(ContentType, kind), Field(Vary, first), Field(Vary, second)];
    forall name ensures Values(fields, name) == ValueIf(fields[0], name) + (ValueIf(fields[1], name) + ValueIf(fields[2], name)) {
      assert fields[1..][1..][1..] == [];
      assert Values(fields[1..][1..], name) == ValueIf(fields[2], name);
      assert Values(fields[1..], name) == ValueIf(fields[1], name) + ValueIf(fields[2], name);
    }
  }

  function ValueIf(field: Field, name: Name): seq<string> {
    if field.name == name then [field.value] else []
  }

  /** A message of another kind between the start of a JSON list and its body overtakes the start. */
  lemma OtherOvertakesStart(env: Env, kind: string, body: Bytes)
    ensures var head := Head(200, [Field(ContentType, "application/json")]);
            var out := Run(env, Conditional(""), Idle, [Start(head)] + ([Other(kind)] + [Body(body, false)]));
            out != [] && out[0] == Other(kind)
  {
    var head := Head(200, [Field(ContentType, "application/json")]);
    var rest := [Other(kind)] + [Body(body, false)];
    assert head.fields[1..] == [];
    assert Values(head.fields, ContentType) == ["application/json"];
    assert !ConditionalSkips(head);
    var response := [Start(head)] + rest;
    assert response[1..] == rest;
    assert Step(env, Conditional(""), Idle, response[0]) == (Filter(Some(head), false), []);
    assert Run(env, Conditional(""), Idle, response) == Run(env, Conditional(""), Filter(Some(head), false), rest);
    OthersPassHeldStart(env, "", head, [Other(kind)], [Body(body, false)]);
  }
}
