/** `buildProperties`: the translation of the caller's string-keyed property
    bag into the typed `AMQP.BasicProperties` attached to a publish.

    The Java map is modelled by the sequence of its entries in iteration
    order; a Java map never repeats a key, so the lemmas that compare the
    result with the map's content require `DistinctKeys`. The two publisher
    variants share this code except for what a header value the JSON reader
    rejects does, which `HeadersPolicy` selects. The date formatter and the
    JSON reader are foreign code and enter as oracles. */
module Properties {
  import opened Wrappers
  import opened Int32

  /** A decoded JSON value, as Jackson hands it back inside the header map. */
  datatype Json =
    | JNull
    | JBool(b: bool)
    | JNumber(n: int)
    | JString(s: string)
    | JArray(items: seq<Json>)
    | JObject(fields: map<string, Json>)

  type Headers = map<string, Json>

  /** A `java.util.Date`, in milliseconds since the epoch. */
  datatype Date = Date(epochMillis: int)

  /** What `DateTimeFormatter.parse` returns: a bag of parsed fields (a
      `TemporalAccessor`), which is not a `Date`. */
  datatype Temporal = Temporal(fields: map<string, int>)

  /** The typed message attributes (`AMQP.BasicProperties`); `None` is a
      property the builder never set. */
  datatype Attributes = Attributes(
    deliveryMode: Option<int32>,
    expiration: Option<string>,
    priority: Option<int32>,
    userId: Option<string>,
    appId: Option<string>,
    contentEncoding: Option<string>,
    contentType: Option<string>,
    correlationId: Option<string>,
    messageId: Option<string>,
    replyTo: Option<string>,
    timestamp: Option<Date>,
    messageType: Option<string>,   // the `type` property
    headers: Option<Headers>)

  /** What `new AMQP.BasicProperties.Builder().build()` yields. */
  const Empty: Attributes :=
    Attributes(None, None, None, None, None, None, None, None, None, None, None, None, None)

  /** The thirteen property names the builder's `switch` recognises. */
  datatype Key =
    | DeliveryMode | Expiration | Priority | UserId | AppId | ContentEncoding | ContentType
    | CorrelationId | MessageId | ReplyTo | Timestamp | Type | HeadersKey

  /** The `case` label of each key (the names are case-sensitive). */
  function Name(k: Key): string {
    match k
    case DeliveryMode => "deliveryMode"
    case Expiration => "expiration"
    case Priority => "priority"
    case UserId => "userId"
    case AppId => "appId"
    case ContentEncoding => "contentEncoding"
    case ContentType => "contentType"
    case CorrelationId => "correlationId"
    case MessageId => "messageId"
    case ReplyTo => "replyTo"
    case Timestamp => "timestamp"
    case Type => "type"
    case HeadersKey => "headers"
  }

  /** Which `case` of the `switch` a property name selects, if any. */
  function KeyOf(s: string): (r: Option<Key>)
    ensures r.Some? ==> Name(r.value) == s
  {
    match s
    case "deliveryMode" => Some(DeliveryMode)
    case "expiration" => Some(Expiration)
    case "priority" => Some(Priority)
    case "userId" => Some(UserId)
    case "appId" => Some(AppId)
    case "contentEncoding" => Some(ContentEncoding)
    case "contentType" => Some(ContentType)
    case "correlationId" => Some(CorrelationId)
    case "messageId" => Some(MessageId)
    case "replyTo" => Some(ReplyTo)
    case "timestamp" => Some(Timestamp)
    case "type" => Some(Type)
    case "headers" => Some(HeadersKey)
    case _ => None
  }

  /** Every key is selected by its own name and by no other. */
  lemma KeyOfName(k: Key)
    ensures KeyOf(Name(k)) == Some(k)
  {
  }

  /** The nine keys whose value is stored as given. */
  predicate IsStringKey(k: Key) {
    !(k.DeliveryMode? || k.Priority? || k.Timestamp? || k.HeadersKey?)
  }

  /** What happens when the JSON reader rejects a `headers` value:
      org/brs fails the build, org/example logs and carries on. */
  datatype HeadersPolicy = FailOnBadHeaders | IgnoreBadHeaders

  /** The foreign parsers. `parseDate(pattern, text)` is
      `DateTimeFormatter.ofPattern(pattern).parse(text)`; `readJson(text)` is
      `objectMapper.readValue(text, Map.class)`. `None` means the call threw
      `DateTimeParseException` or `JsonProcessingException`; `Some(None)` is
      the JSON text `null`, for which the reader returns a null map. */
  datatype Oracles = Oracles(
    parseDate: (string, string) -> Option<Temporal>,
    readJson: string -> Option<Option<Headers>>)

  datatype BuildConfig = BuildConfig(policy: HeadersPolicy, dateFormat: string, oracles: Oracles)

  /** Why a build fails. The first two are the `IOException`s the builder
      throws; `CastError` is the `ClassCastException` that `(Date)` raises on
      the formatter's result, which no `catch` of the builder intercepts. */
  datatype BuildError = PropertyError(key: string) | HeadersError | CastError

  type Entry = (string, string)

  // ---------------------------------------------------------------------------
  // The builder as written

  /** One `case` of the `switch`, with its two `catch` arms: a string key
      stores its value as given, an integer key fails unless the value
      parses, `timestamp` always fails, and a `headers` value the reader
      rejects fails only under the fail-fast policy. */
  function ApplyKey(c: BuildConfig, b: Attributes, k: Key, value: string): (r: Result<Attributes, BuildError>)
    ensures r.Ok? ==> r.value.timestamp == b.timestamp
    ensures IsStringKey(k) ==> r.Ok? && StringField(r.value, k) == Some(value)
    ensures (k.DeliveryMode? || k.Priority?) ==> (r.Err? <==> ParseInt(value).None?)
    ensures (k.DeliveryMode? || k.Priority?) && r.Err? ==> r.error == PropertyError(Name(k))
    ensures k.Timestamp? ==> r.Err? && r.error in {PropertyError(Name(k)), CastError}
    ensures k.HeadersKey? ==> (r.Err? <==> c.policy.FailOnBadHeaders? && c.oracles.readJson(value).None?)
    ensures k.HeadersKey? && r.Err? ==> r.error == HeadersError
  {
    match k
    case DeliveryMode =>
      (match ParseInt(value)
       case Some(n) => Ok(b.(deliveryMode := Some(n)))
       case None => Err(PropertyError(Name(k))))
    case Expiration => Ok(b.(expiration := Some(value)))
    case Priority =>
      (match ParseInt(value)
       case Some(n) => Ok(b.(priority := Some(n)))
       case None => Err(PropertyError(Name(k))))
    case UserId => Ok(b.(userId := Some(value)))
    case AppId => Ok(b.(appId := Some(value)))
    case ContentEncoding => Ok(b.(contentEncoding := Some(value)))
    case ContentType => Ok(b.(contentType := Some(value)))
    case CorrelationId => Ok(b.(correlationId := Some(value)))
    case MessageId => Ok(b.(messageId := Some(value)))
    case ReplyTo => Ok(b.(replyTo := Some(value)))
    case Timestamp =>
      // a successful parse still fails: the result is not a Date
      if c.oracles.parseDate(c.dateFormat, value).None? then Err(PropertyError(Name(k))) else Err(CastError)
    case Type => Ok(b.(messageType := Some(value)))
    case HeadersKey =>
      (match c.oracles.readJson(value)
       case Some(h) => Ok(b.(headers := h))
       case None => if c.policy.FailOnBadHeaders? then Err(HeadersError) else Ok(b))
  }

  /** One iteration of the builder's loop: a key without a `case` is
      skipped; the iteration throws exactly for an entry the reference
      rejects, and then with that entry's rejection. */
  function ApplyEntry(c: BuildConfig, b: Attributes, key: string, value: string): (r: Result<Attributes, BuildError>)
    ensures KeyOf(key).None? ==> r == Ok(b)
    ensures r.Err? <==> !Accepted(c, key, value)
    ensures r.Err? ==> r.error == Rejection(c, key, value)
  {
    match KeyOf(key)
    case None => Ok(b)
    case Some(k) => ApplyKey(c, b, k, value)
  }

  /** The builder's loop over the entries, stopping at the first exception. */
  function BuildEntries(c: BuildConfig, es: seq<Entry>, acc: Attributes): (r: Result<Attributes, BuildError>)
    ensures r.Ok? ==> r.value.timestamp == acc.timestamp
    ensures r.Ok? ==> forall i :: 0 <= i < |es| ==> KeyOf(es[i].0) != Some(Timestamp)
    decreases |es|
  {
    if es == [] then Ok(acc)
    else
      match ApplyEntry(c, acc, es[0].0, es[0].1)
      case Err(e) => Err(e)
      case Ok(next) => BuildEntries(c, es[1..], next)
  }

  /** `buildProperties(propertiesMap)`; `None` is a null map. */
  function Build(c: BuildConfig, props: Option<seq<Entry>>): (r: Result<Attributes, BuildError>)
    ensures props.None? ==> r == Ok(Empty)
    ensures r.Ok? ==> r.value.timestamp.None?
  {
    match props
    case None => Ok(Empty)
    case Some(es) => BuildEntries(c, es, Empty)
  }

  // ---------------------------------------------------------------------------
  // The reference: what each key means, independent of iteration order

  /** Whether the builder accepts `value` under `key`. */
  predicate Accepted(c: BuildConfig, key: string, value: string) {
    match KeyOf(key)
    case Some(DeliveryMode) => ParseInt(value).Some?
    case Some(Priority) => ParseInt(value).Some?
    case Some(Timestamp) => false
    case Some(HeadersKey) => c.policy.IgnoreBadHeaders? || c.oracles.readJson(value).Some?
    case _ => true
  }

  /** The failure a rejected entry causes. */
  function Rejection(c: BuildConfig, key: string, value: string): BuildError
    requires !Accepted(c, key, value)
  {
    match KeyOf(key)
    case Some(Timestamp) =>
      if c.oracles.parseDate(c.dateFormat, value).None? then PropertyError(key) else CastError
    case Some(HeadersKey) => HeadersError
    case _ => PropertyError(key)
  }

  /** An entry that leaves the attributes exactly as they were. */
  predicate Ignored(c: BuildConfig, key: string, value: string) {
    || KeyOf(key).None?
    || (KeyOf(key) == Some(HeadersKey) && c.policy.IgnoreBadHeaders? && c.oracles.readJson(value).None?)
  }

  function Pick(m: map<string, string>, k: Key, otherwise: Option<string>): Option<string> {
    if Name(k) in m then Some(m[Name(k)]) else otherwise
  }

  /** `b` with every property that `m` supplies filled in: each recognised key
      sets its own field, the string keys verbatim, the integer keys parsed,
      `headers` decoded when the reader accepts it (a JSON `null` clears it);
      `timestamp` is never set. */
  function Overlay(c: BuildConfig, b: Attributes, m: map<string, string>): Attributes {
    b.(
      deliveryMode := if Name(DeliveryMode) in m then ParseInt(m[Name(DeliveryMode)]) else b.deliveryMode,
      expiration := Pick(m, Expiration, b.expiration),
      priority := if Name(Priority) in m then ParseInt(m[Name(Priority)]) else b.priority,
      userId := Pick(m, UserId, b.userId),
      appId := Pick(m, AppId, b.appId),
      contentEncoding := Pick(m, ContentEncoding, b.contentEncoding),
      contentType := Pick(m, ContentType, b.contentType),
      correlationId := Pick(m, CorrelationId, b.correlationId),
      messageId := Pick(m, MessageId, b.messageId),
      replyTo := Pick(m, ReplyTo, b.replyTo),
      messageType := Pick(m, Type, b.messageType),
      headers :=
        if Name(HeadersKey) in m && c.oracles.readJson(m[Name(HeadersKey)]).Some?
        then c.oracles.readJson(m[Name(HeadersKey)]).value else b.headers)
  }

  /** The attributes a property map denotes. */
  function Expected(c: BuildConfig, m: map<string, string>): Attributes {
    Overlay(c, Empty, m)
  }

  predicate AllAccepted(c: BuildConfig, m: map<string, string>) {
    forall k :: k in m ==> Accepted(c, k, m[k])
  }

  /** The field a string key sets. */
  function StringField(a: Attributes, k: Key): Option<string>
    requires IsStringKey(k)
  {
    match k
    case Expiration => a.expiration
    case UserId => a.userId
    case AppId => a.appId
    case ContentEncoding => a.contentEncoding
    case ContentType => a.contentType
    case CorrelationId => a.correlationId
    case MessageId => a.messageId
    case ReplyTo => a.replyTo
    case Type => a.messageType
  }

  predicate DistinctKeys(es: seq<Entry>) {
    forall i, j :: 0 <= i < j < |es| ==> es[i].0 != es[j].0
  }

  /** The map whose entry set `es` enumerates. */
  function ToMap(es: seq<Entry>): map<string, string> {
    if es == [] then map[] else ToMap(es[1..])[es[0].0 := es[0].1]
  }

  predicate FirstRejected(c: BuildConfig, es: seq<Entry>, i: int) {
    && 0 <= i < |es|
    && !Accepted(c, es[i].0, es[i].1)
    && forall j :: 0 <= j < i ==> Accepted(c, es[j].0, es[j].1)
  }

  // ---------------------------------------------------------------------------
  // The builder agrees with the reference

  /** One loop iteration either applies the entry's meaning or raises the
      entry's rejection. */
  lemma ApplyEntryAgreesWithReference(c: BuildConfig, b: Attributes, key: string, value: string)
    ensures ApplyEntry(c, b, key, value)
            == if Accepted(c, key, value) then Ok(Overlay(c, b, map[key := value]))
               else Err(Rejection(c, key, value))
  {
  }

  /** Applying one entry and then a map that does not mention its key is the
      same as applying the map extended with the entry. */
  lemma OverlayCompose(c: BuildConfig, b: Attributes, key: string, value: string, m: map<string, string>)
    requires key !in m
    ensures Overlay(c, Overlay(c, b, map[key := value]), m) == Overlay(c, b, m[key := value])
  {
  }

  lemma {:induction false} ToMapKeys(es: seq<Entry>)
    ensures forall k :: k in ToMap(es) <==> exists i :: 0 <= i < |es| && es[i].0 == k
  {
    if es != [] {
      ToMapKeys(es[1..]);
      forall k | k in ToMap(es)
        ensures exists i :: 0 <= i < |es| && es[i].0 == k
      {
        if k != es[0].0 {
          assert k in ToMap(es[1..]);
          var i :| 0 <= i < |es[1..]| && es[1..][i].0 == k;
          assert es[i + 1].0 == k;
        }
      }
      forall k | exists i :: 0 <= i < |es| && es[i].0 == k
        ensures k in ToMap(es)
      {
        var i :| 0 <= i < |es| && es[i].0 == k;
        if i > 0 {
          assert es[1..][i - 1].0 == k;
        }
      }
    }
  }

  lemma {:induction false} ToMapLookup(es: seq<Entry>, i: int)
    requires DistinctKeys(es) && 0 <= i < |es|
    ensures es[i].0 in ToMap(es) && ToMap(es)[es[i].0] == es[i].1
  {
    if i > 0 {
      assert DistinctKeys(es[1..]);
      ToMapLookup(es[1..], i - 1);
      assert es[1..][i - 1] == es[i];
      assert es[0].0 != es[i].0;
    }
  }

  /** The loop fails exactly when some entry is rejected, and then with the
      rejection of the first rejected entry in iteration order. */
  lemma {:induction false} BuildEntriesRejects(c: BuildConfig, es: seq<Entry>, acc: Attributes)
    ensures BuildEntries(c, es, acc).Err?
            <==> exists i :: 0 <= i < |es| && !Accepted(c, es[i].0, es[i].1)
    ensures BuildEntries(c, es, acc).Err?
            ==> exists i :: FirstRejected(c, es, i) && BuildEntries(c, es, acc).error == Rejection(c, es[i].0, es[i].1)
    decreases |es|
  {
    if es != [] {
      var key, value := es[0].0, es[0].1;
      ApplyEntryAgreesWithReference(c, acc, key, value);
      if Accepted(c, key, value) {
        var next := Overlay(c, acc, map[key := value]);
        var tail := es[1..];
        BuildEntriesRejects(c, tail, next);
        assert BuildEntries(c, es, acc) == BuildEntries(c, tail, next);
        if exists i :: 0 <= i < |es| && !Accepted(c, es[i].0, es[i].1) {
          var i :| 0 <= i < |es| && !Accepted(c, es[i].0, es[i].1);
          assert tail[i - 1] == es[i];
        }
        if exists i :: 0 <= i < |tail| && !Accepted(c, tail[i].0, tail[i].1) {
          var i :| 0 <= i < |tail| && !Accepted(c, tail[i].0, tail[i].1);
          assert tail[i] == es[i + 1];
        }
        if BuildEntries(c, tail, next).Err? {
          var i :| FirstRejected(c, tail, i) && BuildEntries(c, tail, next).error == Rejection(c, tail[i].0, tail[i].1);
          forall j | 0 <= j < i + 1
            ensures Accepted(c, es[j].0, es[j].1)
          {
            if j > 0 {
              assert tail[j - 1] == es[j];
            }
          }
          assert tail[i] == es[i + 1];
          assert FirstRejected(c, es, i + 1);
        }
      } else {
        assert FirstRejected(c, es, 0);
      }
    }
  }

  /** When the loop succeeds over distinct keys, the result is the
      reference overlay of the whole map onto the starting attributes. */
  lemma {:induction false} BuildEntriesValue(c: BuildConfig, es: seq<Entry>, acc: Attributes)
    requires DistinctKeys(es)
    ensures BuildEntries(c, es, acc).Ok? ==> BuildEntries(c, es, acc).value == Overlay(c, acc, ToMap(es))
    decreases |es|
  {
    if es == [] {
      assert Overlay(c, acc, map[]) == acc;
    } else {
      var key, value := es[0].0, es[0].1;
      var tail := es[1..];
      ApplyEntryAgreesWithReference(c, acc, key, value);
      if Accepted(c, key, value) {
        var next := Overlay(c, acc, map[key := value]);
        assert DistinctKeys(tail);
        BuildEntriesValue(c, tail, next);
        ToMapKeys(tail);
        forall i | 0 <= i < |tail|
          ensures tail[i].0 != key
        {
          assert tail[i] == es[i + 1];
        }
        OverlayCompose(c, acc, key, value, ToMap(tail));
      }
    }
  }

  /** Over distinct keys, every entry is accepted exactly when every entry of
      the map is. */
  lemma AcceptedEntriesIffMap(c: BuildConfig, es: seq<Entry>)
    requires DistinctKeys(es)
    ensures (forall i :: 0 <= i < |es| ==> Accepted(c, es[i].0, es[i].1)) <==> AllAccepted(c, ToMap(es))
  {
    ToMapKeys(es);
    forall i | 0 <= i < |es| {
      ToMapLookup(es, i);
    }
  }

  /** The builder denotes its map: over a Java map's entries, it succeeds
      exactly when every entry is accepted, and then returns the reference
      attributes of the map. */
  lemma BuildMatchesReference(c: BuildConfig, es: seq<Entry>)
    requires DistinctKeys(es)
    ensures Build(c, Some(es)).Ok? <==> AllAccepted(c, ToMap(es))
    ensures Build(c, Some(es)).Ok? ==> Build(c, Some(es)).value == Expected(c, ToMap(es))
  {
    BuildEntriesRejects(c, es, Empty);
    BuildEntriesValue(c, es, Empty);
    AcceptedEntriesIffMap(c, es);
  }

  /** Iteration order does not matter for whether the build succeeds nor for
      the attributes it produces: two enumerations of the same map agree. */
  lemma BuildOrderIndependent(c: BuildConfig, e1: seq<Entry>, e2: seq<Entry>)
    requires DistinctKeys(e1) && DistinctKeys(e2) && ToMap(e1) == ToMap(e2)
    ensures Build(c, Some(e1)).Ok? <==> Build(c, Some(e2)).Ok?
    ensures Build(c, Some(e1)).Ok? ==> Build(c, Some(e1)) == Build(c, Some(e2))
  {
    BuildMatchesReference(c, e1);
    BuildMatchesReference(c, e2);
  }

  /** The error a failing build reports is that of the first rejected entry
      in iteration order (so, unlike success, it may depend on the order). */
  lemma BuildReportsFirstRejection(c: BuildConfig, es: seq<Entry>)
    ensures Build(c, Some(es)).Err? <==> exists i :: 0 <= i < |es| && !Accepted(c, es[i].0, es[i].1)
    ensures Build(c, Some(es)).Err?
            ==> exists i :: FirstRejected(c, es, i) && Build(c, Some(es)).error == Rejection(c, es[i].0, es[i].1)
  {
    BuildEntriesRejects(c, es, Empty);
  }

  /** With one rejected entry and all others accepted, the build fails with
      that entry's rejection. */
  lemma SoleRejection(c: BuildConfig, es: seq<Entry>, i: int)
    requires 0 <= i < |es| && !Accepted(c, es[i].0, es[i].1)
    requires forall j :: 0 <= j < |es| && j != i ==> Accepted(c, es[j].0, es[j].1)
    ensures Build(c, Some(es)) == Err(Rejection(c, es[i].0, es[i].1))
  {
    BuildEntriesRejects(c, es, Empty);
    var k :| FirstRejected(c, es, k) && Build(c, Some(es)).error == Rejection(c, es[k].0, es[k].1);
    assert k == i;
  }

  // ---------------------------------------------------------------------------
  // Consequences, key by key

  /** An unrecognised key, or (when bad headers are ignored) a `headers` value
      the reader rejects, can be dropped from anywhere in the iteration without
      changing the result. */
  lemma {:induction false} IgnoredEntryHasNoEffect(c: BuildConfig, pre: seq<Entry>, e: Entry, post: seq<Entry>, acc: Attributes)
    requires Ignored(c, e.0, e.1)
    ensures BuildEntries(c, pre + [e] + post, acc) == BuildEntries(c, pre + post, acc)
    decreases |pre|
  {
    var whole := pre + [e] + post;
    if pre == [] {
      assert ApplyEntry(c, acc, e.0, e.1) == Ok(acc);
      assert whole[0] == e && whole[1..] == post;
      assert pre + post == post;
    } else {
      var rest := pre + post;
      assert whole[0] == pre[0] && whole[1..] == pre[1..] + [e] + post;
      assert rest[0] == pre[0] && rest[1..] == pre[1..] + post;
      var step := ApplyEntry(c, acc, pre[0].0, pre[0].1);
      if step.Ok? {
        IgnoredEntryHasNoEffect(c, pre[1..], e, post, step.value);
      }
    }
  }

  /** Each of the nine string keys is copied verbatim into its own field. */
  lemma StringPropertiesVerbatim(c: BuildConfig, es: seq<Entry>, i: int, k: Key)
    requires DistinctKeys(es) && 0 <= i < |es| && IsStringKey(k) && es[i].0 == Name(k)
    requires Build(c, Some(es)).Ok?
    ensures StringField(Build(c, Some(es)).value, k) == Some(es[i].1)
  {
    BuildMatchesReference(c, es);
    ToMapLookup(es, i);
  }

  /** `deliveryMode` and `priority` hold the parsed `int` with no range check
      (any `int`, negative or above the AMQP ranges, is kept). */
  lemma IntegerPropertiesUnchecked(c: BuildConfig, n: int32)
    ensures Build(c, Some([(Name(DeliveryMode), ToString(n))])) == Ok(Empty.(deliveryMode := Some(n)))
    ensures Build(c, Some([(Name(Priority), ToString(n))])) == Ok(Empty.(priority := Some(n)))
  {
    ParseToString(n);
    KeyOfName(DeliveryMode);
    KeyOfName(Priority);
    var d: seq<Entry> := [(Name(DeliveryMode), ToString(n))];
    var p: seq<Entry> := [(Name(Priority), ToString(n))];
    assert d[1..] == [] && p[1..] == [];
    assert BuildEntries(c, d, Empty) == BuildEntries(c, [], Empty.(deliveryMode := Some(n)));
    assert BuildEntries(c, p, Empty) == BuildEntries(c, [], Empty.(priority := Some(n)));
  }

  /** A `deliveryMode` or `priority` that is not a 32-bit decimal integer
      fails the whole build, with no attributes; when it is the only bad
      entry the error names that key. */
  lemma BadIntegerFails(c: BuildConfig, es: seq<Entry>, i: int)
    requires 0 <= i < |es| && (es[i].0 == Name(DeliveryMode) || es[i].0 == Name(Priority))
    requires ParseInt(es[i].1).None?
    ensures Build(c, Some(es)).Err?
    ensures (forall j :: 0 <= j < |es| && j != i ==> Accepted(c, es[j].0, es[j].1))
            ==> Build(c, Some(es)) == Err(PropertyError(es[i].0))
  {
    KeyOfName(DeliveryMode);
    KeyOfName(Priority);
    BuildReportsFirstRejection(c, es);
    if forall j :: 0 <= j < |es| && j != i ==> Accepted(c, es[j].0, es[j].1) {
      SoleRejection(c, es, i);
    }
  }

  /** org/brs: a `headers` value the JSON reader rejects fails the whole
      build; alone, it reports the headers error. */
  lemma BadHeadersFailFast(c: BuildConfig, es: seq<Entry>, i: int)
    requires c.policy == FailOnBadHeaders
    requires 0 <= i < |es| && es[i].0 == Name(HeadersKey) && c.oracles.readJson(es[i].1).None?
    ensures Build(c, Some(es)).Err?
    ensures (forall j :: 0 <= j < |es| && j != i ==> Accepted(c, es[j].0, es[j].1))
            ==> Build(c, Some(es)) == Err(HeadersError)
  {
    KeyOfName(HeadersKey);
    BuildReportsFirstRejection(c, es);
    if forall j :: 0 <= j < |es| && j != i ==> Accepted(c, es[j].0, es[j].1) {
      SoleRejection(c, es, i);
    }
  }

  /** org/example: a `headers` value the JSON reader rejects is skipped: the
      build is that of the map without it, and the headers stay unset. */
  lemma BadHeadersIgnored(c: BuildConfig, pre: seq<Entry>, value: string, post: seq<Entry>)
    requires c.policy == IgnoreBadHeaders && c.oracles.readJson(value).None?
    requires DistinctKeys(pre + [(Name(HeadersKey), value)] + post)
    ensures Build(c, Some(pre + [(Name(HeadersKey), value)] + post)) == Build(c, Some(pre + post))
    ensures Build(c, Some(pre + post)).Ok? ==> Build(c, Some(pre + post)).value.headers.None?
  {
    KeyOfName(HeadersKey);
    var whole := pre + [(Name(HeadersKey), value)] + post;
    IgnoredEntryHasNoEffect(c, pre, (Name(HeadersKey), value), post, Empty);
    var rest := pre + post;
    forall i, j | 0 <= i < j < |rest|
      ensures rest[i].0 != rest[j].0
    {
      var i' := if i < |pre| then i else i + 1;
      var j' := if j < |pre| then j else j + 1;
      assert rest[i] == whole[i'] && rest[j] == whole[j'];
    }
    forall i | 0 <= i < |rest|
      ensures rest[i].0 != Name(HeadersKey)
    {
      var i' := if i < |pre| then i else i + 1;
      assert rest[i] == whole[i'] && whole[|pre|].0 == Name(HeadersKey);
    }
    BuildMatchesReference(c, rest);
    ToMapKeys(rest);
  }

  /** Both variants: the `headers` text `null` is accepted, and as the
      builder stores the null map the reader returns, the headers end up
      unset; alone, it builds the empty attributes. */
  lemma NullHeadersLeaveUnset(c: BuildConfig, es: seq<Entry>, i: int)
    requires DistinctKeys(es) && 0 <= i < |es| && es[i].0 == Name(HeadersKey)
    requires c.oracles.readJson(es[i].1) == Some(None)
    ensures Accepted(c, es[i].0, es[i].1)
    ensures Build(c, Some(es)).Ok? ==> Build(c, Some(es)).value.headers.None?
    ensures |es| == 1 ==> Build(c, Some(es)) == Ok(Empty)
  {
    KeyOfName(HeadersKey);
    BuildMatchesReference(c, es);
    ToMapLookup(es, i);
    if |es| == 1 {
      assert es[1..] == [];
      assert BuildEntries(c, es, Empty) == BuildEntries(c, [], Empty);
    }
  }

  /** A `timestamp` entry always fails the build: an unparsable value with the
      property error naming `timestamp`, a parsable one with the cast error. */
  lemma TimestampNeverBuilds(c: BuildConfig, es: seq<Entry>, i: int)
    requires 0 <= i < |es| && es[i].0 == Name(Timestamp)
    ensures Build(c, Some(es)).Err?
    ensures (forall j :: 0 <= j < |es| && j != i ==> Accepted(c, es[j].0, es[j].1))
            ==> Build(c, Some(es)) == Err(
                  if c.oracles.parseDate(c.dateFormat, es[i].1).None? then PropertyError(Name(Timestamp)) else CastError)
  {
    KeyOfName(Timestamp);
    BuildReportsFirstRejection(c, es);
    if forall j :: 0 <= j < |es| && j != i ==> Accepted(c, es[j].0, es[j].1) {
      SoleRejection(c, es, i);
    }
  }
}
