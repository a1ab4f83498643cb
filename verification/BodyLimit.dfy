/**
The request body limit around an arbitrary inner application.  The application is a strategy: what it does next is any
function of what it has observed so far, so it may catch the refusal, read on, answer, answer twice, or never stop.
*/
module BodyLimit {
  import Sequences
  import opened Wrappers

  datatype Message = Request(body: seq<bv8>) | Disconnect | OtherMessage

  datatype Sent = ResponseStart(status: int) | ResponseBody | OtherSent

  /** What the application observes: a message, the refusal raised inside `receive`, or that its own send went out. */
  datatype Event = Received(message: Message) | TooLarge | SendDone

  datatype Action = Receive | Send(message: Sent) | Return | RaiseTooLarge | RaiseOther

  type App = seq<Event> -> Action

  /** The k-th message of the client. */
  type Client = nat -> Message

  datatype Outcome = StillRunning | Returned | RaisedTooLarge | RaisedOther | Answered413 | HeaderError | NotHttp

  const REFUSAL: seq<Sent> := [ResponseStart(413), ResponseBody]

  // ---- the body as the client sends it ----

  function Size(m: Message): nat { if m.Request? then |m.body| else 0 }

  function Total(client: Client, k: nat): nat {
    if k == 0 then 0 else Total(client, k - 1) + Size(client(k - 1))
  }

  /** What the k-th receive gives the application. */
  function Seen(client: Client, limit: nat, k: nat): Event {
    if client(k).Request? && Total(client, k + 1) > limit then TooLarge else Received(client(k))
  }

  /** The body bytes the first k receives handed over. */
  function Delivered(client: Client, limit: nat, k: nat): nat {
    if k == 0 then 0
    else Delivered(client, limit, k - 1)
         + match Seen(client, limit, k - 1) case Received(m) => Size(m) case _ => 0
  }

  lemma {:induction false} TotalGrows(client: Client, j: nat, k: nat)
    requires j <= k
    ensures Total(client, j) <= Total(client, k)
    decreases k
  {
    if j < k {
      TotalGrows(client, j, k - 1);
    }
  }

  /**
  However often the application reads, the body bytes it gets never exceed the limit; within it, it gets them all.
  */
  lemma {:induction false} DeliveredBounded(client: Client, limit: nat, k: nat)
    ensures Delivered(client, limit, k) <= limit
    ensures Total(client, k) <= limit ==> Delivered(client, limit, k) == Total(client, k)
  {
    if k > 0 {
      DeliveredBounded(client, limit, k - 1);
    }
  }

  /** After the first refusal no request message is handed over any more, not even an empty one. */
  lemma RefusedForGood(client: Client, limit: nat, j: nat, k: nat)
    requires j <= k && Seen(client, limit, j) == TooLarge && client(k).Request?
    ensures Seen(client, limit, k) == TooLarge
  {
    TotalGrows(client, j + 1, k + 1);
  }

  /** A body within the limit passes unchanged. */
  lemma SmallBodyUnchanged(client: Client, limit: nat, n: nat, k: nat)
    requires Total(client, n) <= limit && k < n
    ensures Seen(client, limit, k) == Received(client(k))
  {
    TotalGrows(client, k + 1, n);
  }

  // ---- one request ----

  function Reads(events: seq<Event>): nat {
    if events == [] then 0 else Reads(events[..|events| - 1]) + if events[|events| - 1] != SendDone then 1 else 0
  }

  function Starts(sent: seq<Sent>): nat {
    if sent == [] then 0 else Starts(sent[..|sent| - 1]) + if sent[|sent| - 1].ResponseStart? then 1 else 0
  }

  /** Every observation is what the limit lets through of the client's messages, in order. */
  ghost predicate Faithful(client: Client, limit: nat, events: seq<Event>) {
    forall i | 0 <= i < |events| && events[i] != SendDone :: events[i] == Seen(client, limit, Reads(events[..i]))
  }

  lemma FaithfulMore(client: Client, limit: nat, events: seq<Event>, e: Event)
    requires Faithful(client, limit, events) && (e != SendDone ==> e == Seen(client, limit, Reads(events)))
    ensures Faithful(client, limit, events + [e])
    ensures Reads(events + [e]) == Reads(events) + if e != SendDone then 1 else 0
  {
    assert (events + [e])[..|events|] == events;
    forall i | 0 <= i < |events + [e]| && (events + [e])[i] != SendDone
      ensures (events + [e])[i] == Seen(client, limit, Reads((events + [e])[..i]))
    {
      assert (events + [e])[..i] == events[..i];
    }
  }

  /** The body bytes in a run's observations. */
  function BytesIn(events: seq<Event>): nat {
    if events == [] then 0
    else BytesIn(events[..|events| - 1])
         + match events[|events| - 1] case Received(m) => Size(m) case _ => 0
  }

  lemma {:induction false} FaithfulBytes(client: Client, limit: nat, events: seq<Event>)
    requires Faithful(client, limit, events)
    ensures BytesIn(events) == Delivered(client, limit, Reads(events))
  {
    hide Seen;
    hide Size;
    hide Total;
    if events != [] {
      var front := events[..|events| - 1];
      forall i | 0 <= i < |front| && front[i] != SendDone
        ensures front[i] == Seen(client, limit, Reads(front[..i]))
      {
        assert front[..i] == events[..i];
      }
      FaithfulBytes(client, limit, front);
    }
  }

  lemma StartsMore(sent: seq<Sent>, m: Sent)
    ensures Starts(sent + [m]) == Starts(sent) + if m.ResponseStart? then 1 else 0
  {
    assert (sent + [m])[..|sent|] == sent;
  }

  lemma SeenIs(client: Client, limit: nat, k: nat)
    ensures Total(client, k + 1) == Total(client, k) + Size(client(k))
    ensures Seen(client, limit, k)
            == if client(k).Request? && Total(client, k + 1) > limit then TooLarge else Received(client(k))
  {}

  class Exchange {
    const limit: nat
    const client: Client
    var received: nat          // bytes counted so far
    var started: bool          // a response has begun
    var taken: nat             // messages taken from the client
    var outward: seq<Sent>     // what went out to the client
    var events: seq<Event>     // what the application observed

    ghost predicate Valid()
      reads this
    {
      && received == Total(client, taken)
      && taken == Reads(events)
      && (started <==> Starts(outward) > 0)
      && Faithful(client, limit, events)
    }

    constructor (limit: nat, client: Client)
      ensures this.limit == limit && this.client == client
      ensures Valid() && outward == [] && events == [] && !started
    {
      this.limit, this.client := limit, client;
      received, started, taken, outward, events := 0, false, 0, [], [];
    }

    method CountedReceive()
      requires Valid()
      modifies this
      ensures Valid() && outward == old(outward)
      ensures events == old(events) + [Seen(client, limit, old(taken))]
    {
      SeenIs(client, limit, taken);
      hide Faithful;
      hide Reads;
      hide Starts;
      hide Seen;
      hide Total;
      var message := client(taken);
      taken := taken + 1;
      var event := Received(message);
      if message.Request? {
        received := received + |message.body|;
        if received > limit {
          event := TooLarge;
        }
      }
      FaithfulMore(client, limit, events, event);
      events := events + [event];
    }

    method TrackedSend(message: Sent)
      requires Valid()
      modifies this
      ensures Valid() && outward == old(outward) + [message]
      ensures events == old(events) + [SendDone]
    {
      hide Faithful;
      hide Reads;
      hide Starts;
      hide Seen;
      hide Total;
      if message.ResponseStart? {
        started := true;
      }
      StartsMore(outward, message);
      outward := outward + [message];
      FaithfulMore(client, limit, events, SendDone);
      events := events + [SendDone];
    }
  }

  /** The responses the application itself has begun by its n-th observation. */
  function AppStarts(app: App, events: seq<Event>, n: nat): nat
    requires n <= |events|
  {
    if n == 0 then 0
    else AppStarts(app, events, n - 1)
         + match app(events[..n - 1]) case Send(ResponseStart(_)) => 1 case _ => 0
  }

  lemma {:induction false} AppStartsPrefix(app: App, events: seq<Event>, more: seq<Event>, n: nat)
    requires n <= |events| && events <= more
    ensures AppStarts(app, more, n) == AppStarts(app, events, n)
  {
    if n > 0 {
      AppStartsPrefix(app, events, more, n - 1);
      assert more[..n - 1] == events[..n - 1];
    }
  }

  // ---- the declared length ----

  /** The value of the first content-length header. */
  function Declared(headers: seq<(string, string)>): Option<string> {
    if headers == [] then None
    else if headers[0].0 == "content-length" then Some(headers[0].1)
    else Declared(headers[1..])
  }

  predicate IsDecimal(c: char) { '0' <= c <= '9' }

  /** `str.isdigit` over latin-1: the superscripts count as digits too. */
  predicate IsDigit(c: char) { IsDecimal(c) || c == '\U{B2}' || c == '\U{B3}' || c == '\U{B9}' }

  lemma DigitsAre(c: char)
    ensures IsDigit(c) <==> c in "0123456789\U{B2}\U{B3}\U{B9}"
  {
    var digits := "0123456789\U{B2}\U{B3}\U{B9}";
    if '0' <= c <= '9' {
      assert digits[c as int - '0' as int] == c;
    }
    assert digits[10] == '\U{B2}' && digits[11] == '\U{B3}' && digits[12] == '\U{B9}';
  }

  predicate AllDigits(s: string) { s != "" && forall c | c in s :: IsDigit(c) }

  predicate Decimal(s: string) { s != "" && forall c | c in s :: IsDecimal(c) }

  function Digit(c: char): nat
    requires IsDecimal(c)
  {
    c as int - '0' as int
  }

  function DecimalValue(s: string): nat
    requires forall c | c in s :: IsDecimal(c)
  {
    if s == "" then 0 else DecimalValue(s[..|s| - 1]) * 10 + Digit(s[|s| - 1])
  }

  /** A length as it is printed has its own value. */
  lemma {:induction false} DecimalValueOf(n: nat)
    ensures Decimal(Sequences.Decimal(n)) && DecimalValue(Sequences.Decimal(n)) == n
  {
    var digit := Sequences.DigitOf(n % 10);
    assert Digit(digit) == n % 10;
    if n >= 10 {
      DecimalValueOf(n / 10);
      assert Sequences.Decimal(n)[..|Sequences.Decimal(n)| - 1] == Sequences.Decimal(n / 10);
    }
  }

  /** A declared length that is refused before anything is read. */
  predicate DeclaredTooLarge(limit: nat, headers: seq<(string, string)>) {
    var d := Declared(headers);
    d.Some? && Decimal(d.value) && DecimalValue(d.value) > limit
  }

  /** A value `isdigit` accepts and `int` refuses. */
  predicate Unreadable(headers: seq<(string, string)>) {
    var d := Declared(headers);
    d.Some? && AllDigits(d.value) && !Decimal(d.value)
  }

  /** The shortest such value: a superscript two. */
  lemma SuperscriptUnreadable(headers: seq<(string, string)>)
    requires Declared(headers) == Some("\U{B2}")
    ensures Unreadable(headers)
    ensures !Unreadable([("content-length", "2")]) && Unreadable([("content-length", "\U{B2}")])
  {
    var d := Declared([("content-length", "2")]).value;
    assert d[0] == '2' && Decimal(d);
    assert "\U{B2}"[0] == '\U{B2}' && !IsDecimal("\U{B2}"[0]);
  }

  /** What holds after any number of steps of any application behind the limit. */
  ghost predicate Limited(limit: nat, client: Client, app: App, steps: nat, events: seq<Event>, outward: seq<Sent>,
                          outcome: Outcome)
  {
    && Faithful(client, limit, events)
    && BytesIn(events) <= limit
    && match outcome
       case Answered413 =>
         app(events) == RaiseTooLarge && AppStarts(app, events, |events|) == 0
         && |outward| >= 2 && outward[|outward| - 2..] == REFUSAL && Starts(outward) == 1
       case RaisedTooLarge =>
         app(events) == RaiseTooLarge && Starts(outward) == AppStarts(app, events, |events|) > 0
       case Returned => app(events) == Return && Starts(outward) == AppStarts(app, events, |events|)
       case RaisedOther => app(events) == RaiseOther && Starts(outward) == AppStarts(app, events, |events|)
       case StillRunning => |events| == steps && Starts(outward) == AppStarts(app, events, |events|)
       case _ => false
  }

  lemma OneStep(app: App, events: seq<Event>, e: Event)
    ensures AppStarts(app, events + [e], |events| + 1)
            == AppStarts(app, events, |events|) + match app(events) case Send(ResponseStart(_)) => 1 case _ => 0
  {
    assert (events + [e])[..|events|] == events;
    AppStartsPrefix(app, events, events + [e], |events|);
  }

  lemma RefusalStarts(outward: seq<Sent>)
    ensures Starts(outward + REFUSAL) == Starts(outward) + 1
    ensures (outward + REFUSAL)[|outward|..] == REFUSAL
  {
    StartsMore(outward, ResponseStart(413));
    StartsMore(outward + [ResponseStart(413)], ResponseBody);
    assert outward + REFUSAL == outward + [ResponseStart(413)] + [ResponseBody];
  }

  /** The body limit as `__call__`: the header first, then the application for `steps` of its actions. */
  method Serve(limit: nat, http: bool, headers: seq<(string, string)>, app: App, client: Client, steps: nat)
    returns (outcome: Outcome, x: Exchange)
    ensures fresh(x)
    ensures outcome == NotHttp <==> !http
    ensures outcome == HeaderError <==> http && Unreadable(headers)
    ensures http && DeclaredTooLarge(limit, headers)
            ==> outcome == Answered413 && x.events == [] && x.outward == REFUSAL
    ensures http && !Unreadable(headers) && !DeclaredTooLarge(limit, headers)
            ==> Limited(limit, client, app, steps, x.events, x.outward, outcome)
  {
    x := new Exchange(limit, client);
    if !http {
      return NotHttp, x;
    }
    var i := 0;
    while i < |headers| && headers[i].0 != "content-length"
      invariant 0 <= i <= |headers| && Declared(headers[i..]) == Declared(headers)
    {
      assert headers[i..][1..] == headers[i + 1..];
      i := i + 1;
    }
    if i < |headers| {
      var declared := headers[i].1;
      assert Declared(headers) == Some(declared);
      if AllDigits(declared) {
        if !Decimal(declared) {
          return HeaderError, x;
        }
        if DecimalValue(declared) > limit {
          x.outward := REFUSAL;
          return Answered413, x;
        }
      }
    }
    outcome := RunApp(x, app, steps);
  }

  lemma NothingStarted(app: App)
    ensures Starts([]) == 0 == AppStarts(app, [], 0)
  {}

  method RunApp(x: Exchange, app: App, steps: nat) returns (outcome: Outcome)
    requires x.Valid() && x.events == [] && x.outward == []
    modifies x
    ensures Limited(x.limit, x.client, app, steps, x.events, x.outward, outcome)
  {
    hide Faithful;
    hide Reads;
    hide Starts;
    hide Seen;
    hide Total;
    hide AppStarts;
    hide BytesIn;
    outcome := StillRunning;
    assert Starts([]) == AppStarts(app, [], 0) by { NothingStarted(app); }
    while |x.events| < steps
      invariant x.Valid() && |x.events| <= steps
      invariant Starts(x.outward) == AppStarts(app, x.events, |x.events|)
      decreases steps - |x.events|
    {
      ghost var seen, sent := x.events, x.outward;
      match app(x.events)
      case Receive =>
        x.CountedReceive();
        OneStep(app, seen, x.events[|seen|]);
      case Send(message) =>
        x.TrackedSend(message);
        OneStep(app, seen, SendDone);
        StartsMore(sent, message);
      case Return =>
        outcome := Returned;
        break;
      case RaiseOther =>
        outcome := RaisedOther;
        break;
      case RaiseTooLarge =>
        if x.started {
          outcome := RaisedTooLarge;
        } else {
          RefusalStarts(x.outward);
          x.outward := x.outward + REFUSAL;
          outcome := Answered413;
        }
        break;
    }
    FaithfulBytes(x.client, x.limit, x.events);
    DeliveredBounded(x.client, x.limit, Reads(x.events));
  }

  /** An application that begins at most one response never makes two begin. */
  lemma OneResponse(limit: nat, client: Client, app: App, steps: nat, events: seq<Event>, outward: seq<Sent>,
                    outcome: Outcome)
    requires Limited(limit, client, app, steps, events, outward, outcome) && AppStarts(app, events, |events|) <= 1
    ensures Starts(outward) <= 1
    ensures outcome == Answered413 ==> Starts(outward) == 1
  {}

  /** In a run: once a read was refused, no later observation is a request message. */
  lemma NoRequestAfterRefusal(client: Client, limit: nat, events: seq<Event>, i: nat, j: nat)
    requires Faithful(client, limit, events) && i < j < |events| && events[i] == TooLarge
    ensures !(events[j].Received? && events[j].message.Request?)
  {
    if events[j].Received? && events[j].message.Request? {
      ReadsGrow(events, i, j);
      RefusedForGood(client, limit, Reads(events[..i]), Reads(events[..j]));
    }
  }

  lemma {:induction false} ReadsGrow(events: seq<Event>, i: nat, j: nat)
    requires i <= j <= |events|
    ensures Reads(events[..i]) <= Reads(events[..j])
    decreases j
  {
    if i < j {
      ReadsGrow(events, i, j - 1);
      assert events[..j][..j - 1] == events[..j - 1];
    }
  }
}
