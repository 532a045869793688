/** The broker topology as data, and where a published message ends up. */
module Topology {
  import opened Wrappers
  import opened Stages
  import opened Digits
  import opened Runner
  import opened Messages

  const INGEST_EXCHANGE := "ragent.ingest"
  const DLX_EXCHANGE := "ragent.dlx"

  function QueueName(s: StageName): string { "ragent." + Text(s) }
  function RoutingKey(s: StageName): string { "ingest." + Text(s) }
  function DlqName(s: StageName): string { "ragent." + Text(s) + ".dlq" }

  /** A tier is named by its delay in the largest unit that divides it. */
  function TierLabel(delayMs: nat): string {
    if delayMs % 3_600_000 == 0 then PrintNat(delayMs / 3_600_000) + "h"
    else if delayMs % 60_000 == 0 then PrintNat(delayMs / 60_000) + "m"
    else if delayMs % 1_000 == 0 then PrintNat(delayMs / 1_000) + "s"
    else PrintNat(delayMs) + "ms"
  }

  function RetryExchangeName(delayMs: nat): string { "ragent.retry." + TierLabel(delayMs) }

  datatype ExchangeKind = Topic | Fanout

  datatype ExchangeSpec = ExchangeSpec(name: string, kind: ExchangeKind)

  datatype QueueSpec = QueueSpec(
    name: string,
    exchange: string,
    routingKey: string,
    prefetch: nat,
    ttlMs: Option<nat>,
    deadLetterExchange: Option<string>,
    consumed: bool)

  datatype Topology = Topology(exchanges: seq<ExchangeSpec>, queues: seq<QueueSpec>)

  function WorkSpec(stage: Stage): QueueSpec {
    QueueSpec(QueueName(stage.name), INGEST_EXCHANGE, RoutingKey(stage.name), stage.prefetch,
              None, Some(DLX_EXCHANGE), true)
  }

  function DlqSpec(stage: Stage): QueueSpec {
    QueueSpec(DlqName(stage.name), DLX_EXCHANGE, RoutingKey(stage.name), 4, None, None, false)
  }

  function TierSpec(delayMs: nat): QueueSpec {
    QueueSpec(RetryExchangeName(delayMs), RetryExchangeName(delayMs), "", 4,
              Some(delayMs), Some(INGEST_EXCHANGE), false)
  }

  /** Every stage has a work queue and a dead-letter queue, every delay a tier, and the
      exchanges are the two topics plus one fanout per delay; nothing else is declared. */
  method BuildTopology(pipeline: seq<Stage>, retryDelays: seq<nat>) returns (t: Topology)
    ensures Declares(t, pipeline, retryDelays)
  {
    var exchanges := [ExchangeSpec(INGEST_EXCHANGE, Topic), ExchangeSpec(DLX_EXCHANGE, Topic)];
    var queues: seq<QueueSpec> := [];
    for i := 0 to |pipeline|
      invariant forall q :: q in queues <==>
                  exists s :: s in pipeline[..i] && (q == WorkSpec(s) || q == DlqSpec(s))
    {
      assert pipeline[..i + 1] == pipeline[..i] + [pipeline[i]];
      queues := queues + [WorkSpec(pipeline[i])];
      queues := queues + [DlqSpec(pipeline[i])];
    }
    assert pipeline[..|pipeline|] == pipeline;
    for i := 0 to |retryDelays|
      invariant forall e :: e in exchanges <==>
                  || e == ExchangeSpec(INGEST_EXCHANGE, Topic)
                  || e == ExchangeSpec(DLX_EXCHANGE, Topic)
                  || exists d :: d in retryDelays[..i] && e == ExchangeSpec(RetryExchangeName(d), Fanout)
      invariant forall q :: q in queues <==>
                  || (exists s :: s in pipeline && (q == WorkSpec(s) || q == DlqSpec(s)))
                  || (exists d :: d in retryDelays[..i] && q == TierSpec(d))
    {
      assert retryDelays[..i + 1] == retryDelays[..i] + [retryDelays[i]];
      exchanges := exchanges + [ExchangeSpec(RetryExchangeName(retryDelays[i]), Fanout)];
      queues := queues + [TierSpec(retryDelays[i])];
    }
    assert retryDelays[..|retryDelays|] == retryDelays;
    t := Topology(exchanges, queues);
  }

  ghost predicate Declares(t: Topology, pipeline: seq<Stage>, retryDelays: seq<nat>) {
    && (forall e :: e in t.exchanges <==>
          || e == ExchangeSpec(INGEST_EXCHANGE, Topic)
          || e == ExchangeSpec(DLX_EXCHANGE, Topic)
          || exists d :: d in retryDelays && e == ExchangeSpec(RetryExchangeName(d), Fanout))
    && (forall q :: q in t.queues <==>
          || (exists s :: s in pipeline && (q == WorkSpec(s) || q == DlqSpec(s)))
          || (exists d :: d in retryDelays && q == TierSpec(d)))
  }

  /** The queue that hands a stage its work, that many messages at a time. */
  ghost predicate IsWorkOf(q: QueueSpec, s: Stage) {
    && q.name == "ragent." + Text(s.name) && q.routingKey == "ingest." + Text(s.name) && q.prefetch == s.prefetch
    && q.exchange == INGEST_EXCHANGE && q.deadLetterExchange == Some(DLX_EXCHANGE) && q.ttlMs.None?
  }

  /** Workers consume from the stages' work queues and from no other; what dead-letters and tiers
      hold is only stored there, and only tiers let messages go when their time is up. */
  lemma WorkersTakeWork(t: Topology, pipeline: seq<Stage>, delays: seq<nat>, q: QueueSpec)
    requires Declares(t, pipeline, delays) && q in t.queues
    ensures q.consumed <==> exists s :: s in pipeline && IsWorkOf(q, s)
    ensures q.consumed <==> q.deadLetterExchange == Some(DLX_EXCHANGE)
    ensures !q.consumed ==> q.prefetch == 4 && q.exchange != INGEST_EXCHANGE
    ensures q.ttlMs.Some? <==> q.deadLetterExchange == Some(INGEST_EXCHANGE)
  {
    if s :| s in pipeline && (q == WorkSpec(s) || q == DlqSpec(s)) {
      assert q.consumed ==> IsWorkOf(q, s);
    } else {
      var d :| d in delays && q == TierSpec(d);
      assert RetryExchangeName(d)[7] == 'r';
    }
  }

  // ---------------------------------------------------------------- routing

  /** The dot-separated words of a key. */
  function Words(key: string): (r: seq<string>)
    ensures |r| > 0
  {
    if key == "" then [""]
    else
      var rest := Words(key[1..]);
      if key[0] == '.' then [""] + rest else [[key[0]] + rest[0]] + rest[1..]
  }

  /** Topic matching: a star stands for one word, a hash for any number of words. */
  predicate TopicMatch(pattern: seq<string>, key: seq<string>)
    decreases |pattern| + |key|
  {
    if pattern == [] then key == []
    else if pattern[0] == "#" then
      TopicMatch(pattern[1..], key) || (key != [] && TopicMatch(pattern, key[1..]))
    else
      key != [] && (pattern[0] == "*" || pattern[0] == key[0]) && TopicMatch(pattern[1..], key[1..])
  }

  predicate Delivers(e: ExchangeSpec, q: QueueSpec, key: string) {
    q.exchange == e.name && (e.kind == Fanout || TopicMatch(Words(q.routingKey), Words(key)))
  }

  /** The queues a message published to `exchange` with this key lands in. */
  function Route(t: Topology, exchange: string, key: string): set<QueueSpec> {
    set q, e | q in t.queues && e in t.exchanges && e.name == exchange && Delivers(e, q, key) :: q
  }

  // ---------------------------------------------------------------- names

  /** A stage name the broker can use: no separators and no wildcards. */
  ghost predicate PlainName(s: StageName) {
    && Text(s) != ""
    && forall i :: 0 <= i < |Text(s)| ==> Text(s)[i] != '.' && Text(s)[i] != '*' && Text(s)[i] != '#'
  }

  ghost predicate PlainPipeline(pipeline: seq<Stage>) {
    && (forall s :: s in pipeline ==> PlainName(s.name))
    && (forall s, r :: s in pipeline && r in pipeline && Text(s.name) == Text(r.name) ==> s == r)
  }

  lemma {:induction false} WordsOfPlain(word: string)
    requires forall i :: 0 <= i < |word| ==> word[i] != '.'
    ensures Words(word) == [word]
  {
    if word != "" {
      WordsOfPlain(word[1..]);
      assert [word[0]] + word[1..] == word;
    }
  }

  lemma {:induction false} WordsSplit(word: string, rest: string)
    requires forall i :: 0 <= i < |word| ==> word[i] != '.'
    ensures Words(word + "." + rest) == [word] + Words(rest)
  {
    var key := word + "." + rest;
    if word == "" {
      assert key[1..] == rest;
    } else {
      assert key[1..] == word[1..] + "." + rest;
      WordsSplit(word[1..], rest);
      assert [word[0]] + word[1..] == word;
    }
  }

  /** A binding on a plain stage name matches that stage's key and no other. */
  lemma KeyMatchesOnlyItself(s: StageName, r: StageName)
    requires PlainName(s) && PlainName(r)
    ensures TopicMatch(Words(RoutingKey(s)), Words(RoutingKey(r))) <==> Text(s) == Text(r)
  {
    assert RoutingKey(s) == "ingest" + "." + Text(s) && RoutingKey(r) == "ingest" + "." + Text(r);
    WordsSplit("ingest", Text(s));
    WordsSplit("ingest", Text(r));
    WordsOfPlain(Text(s));
    WordsOfPlain(Text(r));
    NotWild(Text(s));
    NotWild("ingest");
    TwoWords("ingest", Text(s), Text(r));
  }

  lemma NotWild(word: string)
    requires word != "" && word[0] != '*' && word[0] != '#'
    ensures word != "*" && word != "#"
  {
  }

  lemma TwoWords(first: string, a: string, b: string)
    requires first != "*" && first != "#" && a != "*" && a != "#"
    ensures TopicMatch([first] + [a], [first] + [b]) <==> a == b
  {
    var pattern, key := [first] + [a], [first] + [b];
    assert pattern[1..] == [a] && key[1..] == [b];
    assert [a][1..] == [] && [b][1..] == [];
    assert TopicMatch([a], [b]) <==> a == b;
  }

  // ---------------------------------------------------------------- tier labels

  /** Milliseconds in a unit. */
  function UnitMs(unit: string): nat {
    if unit == "h" then 3_600_000 else if unit == "m" then 60_000 else if unit == "s" then 1_000 else 1
  }

  function LeadingDigits(s: string): (n: nat)
    ensures n <= |s| && AllDigits(s[..n]) && (n < |s| ==> !IsDigit(s[n]))
  {
    if s == "" || !IsDigit(s[0]) then 0
    else
      var n := LeadingDigits(s[1..]);
      assert s[..n + 1] == [s[0]] + s[1..][..n];
      n + 1
  }

  /** Reads a tier label back. */
  function LabelMs(s: string): nat {
    var n := LeadingDigits(s);
    ReadNat(s[..n]) * UnitMs(s[n..])
  }

  lemma {:induction false} DigitsThenUnit(digits: string, unit: string)
    requires AllDigits(digits) && unit != "" && !IsDigit(unit[0])
    ensures LeadingDigits(digits + unit) == |digits|
  {
    if digits == "" {
      assert digits + unit == unit;
    } else {
      assert (digits + unit)[1..] == digits[1..] + unit;
      DigitsThenUnit(digits[1..], unit);
    }
  }

  lemma LabelRoundTrip(delayMs: nat)
    ensures LabelMs(TierLabel(delayMs)) == delayMs
    ensures TierLabel(delayMs) != "" && IsDigit(TierLabel(delayMs)[0])
  {
    hide PrintNat, ReadNat;
    var count, unit :=
      if delayMs % 3_600_000 == 0 then delayMs / 3_600_000 else if delayMs % 60_000 == 0 then delayMs / 60_000
      else if delayMs % 1_000 == 0 then delayMs / 1_000 else delayMs,
      if delayMs % 3_600_000 == 0 then "h" else if delayMs % 60_000 == 0 then "m"
      else if delayMs % 1_000 == 0 then "s" else "ms";
    var text := PrintNat(count) + unit;
    DigitsThenUnit(PrintNat(count), unit);
    ReadPrint(count);
    assert text[..|PrintNat(count)|] == PrintNat(count) && text[|PrintNat(count)|..] == unit;
    assert |"ms"| == 2 && |"h"| == 1 && |"m"| == 1 && |"s"| == 1;
    assert "h"[0] == 'h' && "m"[0] == 'm' && "s"[0] == 's';
  }

  /** Different delays have different tiers. */
  lemma TiersDiffer(d: nat, e: nat)
    ensures RetryExchangeName(d) == RetryExchangeName(e) <==> d == e
  {
    LabelRoundTrip(d);
    LabelRoundTrip(e);
    var prefix := "ragent.retry.";
    assert RetryExchangeName(d)[|prefix|..] == TierLabel(d);
    assert RetryExchangeName(e)[|prefix|..] == TierLabel(e);
  }

  lemma TierIsNoTopic(d: nat)
    ensures RetryExchangeName(d) != INGEST_EXCHANGE && RetryExchangeName(d) != DLX_EXCHANGE
  {
    LabelRoundTrip(d);
    assert RetryExchangeName(d)[7] == 'r';
    assert |RetryExchangeName(d)| > |INGEST_EXCHANGE| == 13;
  }

  // ---------------------------------------------------------------- where messages land

  /** A message published for a stage lands in that stage's work queue and nowhere else. */
  lemma IngestReachesOwnQueue(t: Topology, pipeline: seq<Stage>, delays: seq<nat>, s: Stage)
    requires Declares(t, pipeline, delays) && PlainPipeline(pipeline) && s in pipeline
    ensures Route(t, INGEST_EXCHANGE, RoutingKey(s.name)) == {WorkSpec(s)}
  {
    var key := RoutingKey(s.name);
    assert ExchangeSpec(INGEST_EXCHANGE, Topic) in t.exchanges;
    forall q ensures q in Route(t, INGEST_EXCHANGE, key) <==> q == WorkSpec(s) {
      KeyMatchesOnlyItself(s.name, s.name);
      if q in Route(t, INGEST_EXCHANGE, key) {
        var e :| e in t.exchanges && e.name == INGEST_EXCHANGE && q in t.queues && Delivers(e, q, key);
        OwnerOf(t, pipeline, delays, INGEST_EXCHANGE, e, q, key, s);
      } else if q == WorkSpec(s) {
        assert q in t.queues && Delivers(ExchangeSpec(INGEST_EXCHANGE, Topic), q, key);
      }
    }
  }

  /** A message dead-lettered for a stage, by publishing or by rejection, lands in that
      stage's dead-letter queue and nowhere else. */
  lemma DeadLettersReachOwnQueue(t: Topology, pipeline: seq<Stage>, delays: seq<nat>, s: Stage)
    requires Declares(t, pipeline, delays) && PlainPipeline(pipeline) && s in pipeline
    ensures Route(t, DLX_EXCHANGE, RoutingKey(s.name)) == {DlqSpec(s)}
    ensures WorkSpec(s).deadLetterExchange == Some(DLX_EXCHANGE)
  {
    var key := RoutingKey(s.name);
    assert ExchangeSpec(DLX_EXCHANGE, Topic) in t.exchanges;
    forall q ensures q in Route(t, DLX_EXCHANGE, key) <==> q == DlqSpec(s) {
      KeyMatchesOnlyItself(s.name, s.name);
      if q in Route(t, DLX_EXCHANGE, key) {
        var e :| e in t.exchanges && e.name == DLX_EXCHANGE && q in t.queues && Delivers(e, q, key);
        OwnerOf(t, pipeline, delays, DLX_EXCHANGE, e, q, key, s);
      } else if q == DlqSpec(s) {
        assert q in t.queues && Delivers(ExchangeSpec(DLX_EXCHANGE, Topic), q, key);
      }
    }
  }

  /** Whatever a topic exchange delivers under a stage's key belongs to that stage. */
  lemma OwnerOf(t: Topology, pipeline: seq<Stage>, delays: seq<nat>, exchange: string,
                e: ExchangeSpec, q: QueueSpec, key: string, s: Stage)
    requires Declares(t, pipeline, delays) && PlainPipeline(pipeline) && s in pipeline
    requires exchange == INGEST_EXCHANGE || exchange == DLX_EXCHANGE
    requires e in t.exchanges && e.name == exchange && q in t.queues
    requires key == RoutingKey(s.name) && Delivers(e, q, key)
    ensures q == if exchange == INGEST_EXCHANGE then WorkSpec(s) else DlqSpec(s)
  {
    assert INGEST_EXCHANGE[7] == 'i' && DLX_EXCHANGE[7] == 'd';
    if d :| d in delays && e == ExchangeSpec(RetryExchangeName(d), Fanout) {
      TierIsNoTopic(d);
    }
    if d :| d in delays && q == TierSpec(d) {
      TierIsNoTopic(d);
    } else {
      var r :| r in pipeline && (q == WorkSpec(r) || q == DlqSpec(r));
      KeyMatchesOnlyItself(r.name, s.name);
    }
  }

  /** A message published to a delay's exchange waits in that delay's queue, whatever its key. */
  lemma RetryReachesOwnTier(t: Topology, pipeline: seq<Stage>, delays: seq<nat>, d: nat, key: string)
    requires Declares(t, pipeline, delays) && d in delays
    ensures Route(t, RetryExchangeName(d), key) == {TierSpec(d)}
  {
    hide TierLabel, PrintNat;
    TierIsNoTopic(d);
    var fanout := ExchangeSpec(RetryExchangeName(d), Fanout);
    assert fanout in t.exchanges && TierSpec(d) in t.queues && Delivers(fanout, TierSpec(d), key);
    forall q | q in Route(t, RetryExchangeName(d), key) ensures q == TierSpec(d) {
      var e :| e in t.exchanges && e.name == RetryExchangeName(d) && q in t.queues && Delivers(e, q, key);
      if c :| c in delays && q == TierSpec(c) {
        TiersDiffer(c, d);
      }
    }
  }

  /** The full trip of a retried message: out to the tier of its delay, and, when that
      tier's time-to-live runs out, back to its own stage's work queue. */
  lemma RetryComesHome(t: Topology, pipeline: seq<Stage>, delays: seq<nat>, s: Stage, d: nat)
    requires Declares(t, pipeline, delays) && PlainPipeline(pipeline) && s in pipeline && d in delays
    ensures forall q :: q in Route(t, RetryExchangeName(d), RoutingKey(s.name)) ==>
              && q.ttlMs == Some(d)
              && q.deadLetterExchange.Some?
              && Route(t, q.deadLetterExchange.value, RoutingKey(s.name)) == {WorkSpec(s)}
    ensures |Route(t, RetryExchangeName(d), RoutingKey(s.name))| == 1
  {
    RetryReachesOwnTier(t, pipeline, delays, d, RoutingKey(s.name));
    IngestReachesOwnQueue(t, pipeline, delays, s);
  }

  // ---------------------------------------------------------------- the shipped broker

  lemma ShippedTexts(n: StageName)
    requires !n.Named?
    ensures Text(n) != "" && PlainName(n)
    ensures (|Text(n)|, Text(n)[0]) == Signature(n)
  {
  }

  /** Length and first letter tell the ten names apart. */
  function Signature(n: StageName): (nat, char) {
    match n
    case Detect => (6, 'd')
    case Convert => (7, 'c')
    case Parse => (5, 'p')
    case ParseFlow => (10, 'p')
    case Ocr => (3, 'o')
    case Tables => (6, 't')
    case Figures => (7, 'f')
    case Chunk => (5, 'c')
    case Contextualize => (13, 'c')
    case Embed => (5, 'e')
    case Named(_) => (0, ' ')
  }

  lemma SameTextSameName(a: StageName, b: StageName)
    requires !a.Named? && !b.Named? && Text(a) == Text(b)
    ensures a == b
  {
    ShippedTexts(a);
    ShippedTexts(b);
    assert Signature(a) == Signature(b);
  }

  lemma ShippedName(p: seq<Stage>, s: Stage)
    requires Dag.Shipped(p) && s in p
    ensures !s.name.Named? && Dag.Slot(s.name) < |p| && p[Dag.Slot(s.name)] == s
  {
    Dag.StageInSlot(p, s);
  }

  lemma ShippedIsPlain(p: seq<Stage>)
    requires Dag.Shipped(p)
    ensures PlainPipeline(p)
  {
    forall s | s in p ensures PlainName(s.name) {
      ShippedName(p, s);
      ShippedTexts(s.name);
    }
    forall s, r | s in p && r in p && Text(s.name) == Text(r.name) ensures s == r {
      ShippedName(p, s);
      ShippedName(p, r);
      SameTextSameName(s.name, r.name);
    }
  }

  /** The name of each resting place of the protocol. */
  function NameOf(q: Queue): string {
    match q
    case Work(s) => QueueName(s)
    case Dlq(s) => DlqName(s)
    case Tier(d) => RetryExchangeName(d)
  }

  ghost function NamesIn(specs: set<QueueSpec>): set<string> {
    set q | q in specs :: q.name
  }

  /** On the shipped broker every publish of the protocol goes exactly where the
      protocol says: first attempts and returning retries to the stage's work queue,
      retries to the tier of their delay, dead letters to the stage's own. */
  lemma ProtocolQueuesAreReal(t: Topology, p: seq<Stage>, delays: seq<nat>, stage: Stage, d: nat)
    requires Dag.Shipped(p) && Declares(t, p, delays) && stage in p && d in delays
    ensures NamesIn(Route(t, INGEST_EXCHANGE, RoutingKey(stage.name))) == {NameOf(Work(stage.name))}
    ensures NamesIn(Route(t, DLX_EXCHANGE, RoutingKey(stage.name))) == {NameOf(Dlq(stage.name))}
    ensures NamesIn(Route(t, RetryExchangeName(d), RoutingKey(stage.name))) == {NameOf(Tier(d))}
    ensures forall q :: q in Route(t, RetryExchangeName(d), RoutingKey(stage.name)) ==>
              q.deadLetterExchange == Some(INGEST_EXCHANGE)
  {
    ShippedIsPlain(p);
    LandingOf(t, p, delays, stage, d);
  }

  lemma OneName(specs: set<QueueSpec>, q: QueueSpec)
    requires specs == {q}
    ensures NamesIn(specs) == {q.name}
  {
  }

  lemma LandingOf(t: Topology, p: seq<Stage>, delays: seq<nat>, stage: Stage, d: nat)
    requires PlainPipeline(p) && Declares(t, p, delays) && stage in p && d in delays
    ensures NamesIn(Route(t, INGEST_EXCHANGE, RoutingKey(stage.name))) == {NameOf(Work(stage.name))}
    ensures NamesIn(Route(t, DLX_EXCHANGE, RoutingKey(stage.name))) == {NameOf(Dlq(stage.name))}
    ensures NamesIn(Route(t, RetryExchangeName(d), RoutingKey(stage.name))) == {NameOf(Tier(d))}
    ensures Route(t, RetryExchangeName(d), RoutingKey(stage.name)) == {TierSpec(d)}
  {
    var key := RoutingKey(stage.name);
    assert NamesIn(Route(t, INGEST_EXCHANGE, key)) == {NameOf(Work(stage.name))} by {
      IngestReachesOwnQueue(t, p, delays, stage);
      OneName(Route(t, INGEST_EXCHANGE, key), WorkSpec(stage));
    }
    assert NamesIn(Route(t, DLX_EXCHANGE, key)) == {NameOf(Dlq(stage.name))} by {
      DeadLettersReachOwnQueue(t, p, delays, stage);
      OneName(Route(t, DLX_EXCHANGE, key), DlqSpec(stage));
    }
    RetryReachesOwnTier(t, p, delays, d, key);
    OneName(Route(t, RetryExchangeName(d), key), TierSpec(d));
  }
}
