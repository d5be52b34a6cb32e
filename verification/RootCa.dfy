/**
 The trust bundle source and its broadcast: a file that is read again on every watch event, or a
 channel that replaces the bundle held in memory. Every subscriber gets one sender goroutine for each
 event; a sender blocks until the subscriber receives from it.
 */
module RootCa {
  import opened Prelude
  import opened VolumeFs

  /** A subscriber's unbuffered channel: senders blocked on it, and events received from it. */
  datatype Subscriber = Subscriber(senders: nat, received: nat)

  datatype Source = Source(pem: Bytes, subscribers: seq<Subscriber>)

  /** A file compares what it reads with what it has; memory announces whatever it is given. */
  datatype Kind = FileSource | MemorySource

  datatype Event =
    | Load(read: Option<Bytes>)    // a watch event or a message; reading the file may fail
    | Subscribe
    | Receive(i: nat)

  function Announce(subscribers: seq<Subscriber>): (r: seq<Subscriber>) {
    seq(|subscribers|, i requires 0 <= i < |subscribers| => subscribers[i].(senders := subscribers[i].senders + 1))
  }

  /** The event makes the source announce a bundle. */
  predicate Announces(kind: Kind, s: Source, e: Event) {
    e.Load? && e.read.Some? && (kind.FileSource? ==> e.read.value != s.pem)
  }

  predicate Possible(s: Source, e: Event) {
    e.Receive? ==> e.i < |s.subscribers| && s.subscribers[e.i].senders > 0
  }

  function Step(kind: Kind, s: Source, e: Event): Source
    requires Possible(s, e)
  {
    match e
    case Load(_) => if Announces(kind, s, e) then Source(e.read.value, Announce(s.subscribers)) else s
    case Subscribe => s.(subscribers := s.subscribers + [Subscriber(0, 0)])
    case Receive(i) =>
      var sub := s.subscribers[i];
      s.(subscribers := s.subscribers[i := Subscriber(sub.senders - 1, sub.received + 1)])
  }

  // ---- The two sources as they are kept --------------------------------------------------------------

  class File {
    var certificatesPEM: Bytes
    var subscribers: seq<Subscriber>

    ghost function Value(): Source
      reads this
    {
      Source(certificatesPEM, subscribers)
    }

    constructor (certificatesPEM: Bytes)
      ensures Value() == Source(certificatesPEM, [])
    {
      this.certificatesPEM := certificatesPEM;
      subscribers := [];
    }

    method ReloadCertificatesPEM(read: Option<Bytes>)
      modifies this
      ensures Value() == Step(FileSource, old(Value()), Load(read))
      ensures read.Some? ==> certificatesPEM == read.value
      ensures certificatesPEM == old(certificatesPEM) ==> subscribers == old(subscribers)
    {
      if read.None? || read.value == certificatesPEM {
        return;
      }
      certificatesPEM := read.value;
      subscribers := SpawnSenders(subscribers);
    }

    method CertificatesPEM() returns (pem: Bytes)
      ensures pem == Value().pem
    {
      pem := certificatesPEM;
    }

    method Subscribe() returns (i: nat)
      modifies this
      ensures Value() == Step(FileSource, old(Value()), Event.Subscribe)
      ensures i == |old(subscribers)| && subscribers[i] == Subscriber(0, 0)
    {
      i := |subscribers|;
      subscribers := subscribers + [Subscriber(0, 0)];
    }
  }

  class Memory {
    var certificatesPEM: Bytes
    var subscribers: seq<Subscriber>

    ghost function Value(): Source
      reads this
    {
      Source(certificatesPEM, subscribers)
    }

    constructor ()
      ensures Value() == Source([], [])
    {
      certificatesPEM := [];
      subscribers := [];
    }

    /** One round of the loop of `NewMemory`. */
    method Take(pem: Bytes)
      modifies this
      ensures Value() == Step(MemorySource, old(Value()), Load(Some(pem)))
      ensures certificatesPEM == pem
    {
      certificatesPEM := pem;
      subscribers := SpawnSenders(subscribers);
    }

    method Subscribe() returns (i: nat)
      modifies this
      ensures Value() == Step(MemorySource, old(Value()), Event.Subscribe)
      ensures i == |old(subscribers)| && subscribers[i] == Subscriber(0, 0)
    {
      i := |subscribers|;
      subscribers := subscribers + [Subscriber(0, 0)];
    }
  }

  /** The loop that starts one sender for every subscriber. */
  method SpawnSenders(subscribers: seq<Subscriber>) returns (r: seq<Subscriber>)
    ensures r == Announce(subscribers)
  {
    r := subscribers;
    for i := 0 to |subscribers|
      invariant |r| == |subscribers|
      invariant forall j | 0 <= j < i :: r[j] == Announce(subscribers)[j]
      invariant forall j | i <= j < |subscribers| :: r[j] == subscribers[j]
    {
      r := r[i := r[i].(senders := r[i].senders + 1)];
    }
  }

  // ---- Runs --------------------------------------------------------------------------------------------

  predicate Run(kind: Kind, states: seq<Source>, events: seq<Event>) {
    && |states| == |events| + 1
    && forall k | 0 <= k < |events| ::
         Possible(states[k], events[k]) && states[k + 1] == Step(kind, states[k], events[k])
  }

  /** Every event that is possible extends a run. */
  lemma RunGoesOn(kind: Kind, states: seq<Source>, events: seq<Event>, e: Event)
    requires Run(kind, states, events) && Possible(states[|events|], e)
    ensures Run(kind, states + [Step(kind, states[|events|], e)], events + [e])
  {
    var longer, more := states + [Step(kind, states[|events|], e)], events + [e];
    forall k | 0 <= k < |more|
      ensures Possible(longer[k], more[k]) && longer[k + 1] == Step(kind, longer[k], more[k])
    {
      if k < |events| {
        assert states[k + 1] == Step(kind, states[k], events[k]);
      }
    }
  }

  /** How often the bundle was replaced by a different one from state `j` to state `k`. */
  function Changes(states: seq<Source>, j: nat, k: nat): nat
    requires k < |states|
    decreases k
  {
    if k <= j then 0
    else Changes(states, j, k - 1) + (if states[k].pem != states[k - 1].pem then 1 else 0)
  }

  /** How many bundles were given to the source between the two states. */
  function Loads(events: seq<Event>, j: nat, k: nat): nat
    requires k <= |events|
    decreases k
  {
    if k <= j then 0
    else Loads(events, j, k - 1) + (if events[k - 1].Load? && events[k - 1].read.Some? then 1 else 0)
  }

  /** Subscriber `i` comes into being in the step after state `j`. */
  predicate SubscribedAt(states: seq<Source>, events: seq<Event>, i: nat, j: nat) {
    j < |events| < |states| && events[j].Subscribe? && |states[j].subscribers| == i
  }

  /**
   No event is lost and none is made up: for each subscriber of a file, the events it has received and
   those still on their way add up to the number of times the content has changed since it subscribed.
   */
  lemma {:induction false} BroadcastConserved(states: seq<Source>, events: seq<Event>, i: nat, j: nat, k: nat)
    requires Run(FileSource, states, events) && SubscribedAt(states, events, i, j) && j < k < |states|
    ensures i < |states[k].subscribers|
    ensures states[k].subscribers[i].received + states[k].subscribers[i].senders == Changes(states, j, k)
  {
    assert states[k - 1 + 1] == Step(FileSource, states[k - 1], events[k - 1]);
    if k > j + 1 {
      BroadcastConserved(states, events, i, j, k - 1);
    }
  }

  /** Memory announces every bundle it is given, a repeated one too. */
  lemma {:induction false} MemoryConserved(states: seq<Source>, events: seq<Event>, i: nat, j: nat, k: nat)
    requires Run(MemorySource, states, events) && SubscribedAt(states, events, i, j) && j < k < |states|
    ensures i < |states[k].subscribers|
    ensures states[k].subscribers[i].received + states[k].subscribers[i].senders == Loads(events, j, k)
    ensures Loads(events, j, k) >= Changes(states, j, k)
  {
    assert states[k - 1 + 1] == Step(MemorySource, states[k - 1], events[k - 1]);
    if k > j + 1 {
      MemoryConserved(states, events, i, j, k - 1);
    }
  }

  /** The successive contents of the source, from the first state to state `k`. */
  function Versions(states: seq<Source>, k: nat): (v: seq<Bytes>)
    requires k < |states|
    ensures v != []
  {
    if k == 0 then [states[0].pem]
    else if states[k].pem != states[k - 1].pem then Versions(states, k - 1) + [states[k].pem]
    else Versions(states, k - 1)
  }

  lemma {:induction false} VersionsCount(states: seq<Source>, j: nat, k: nat)
    requires j <= k < |states|
    ensures |Versions(states, k)| == |Versions(states, j)| + Changes(states, j, k)
    ensures Versions(states, j) <= Versions(states, k)
  {
    if j < k {
      VersionsCount(states, j, k - 1);
    }
  }

  lemma {:induction false} VersionsLast(states: seq<Source>, k: nat)
    requires k < |states|
    ensures Versions(states, k)[|Versions(states, k)| - 1] == states[k].pem
  {
    if k > 0 {
      VersionsLast(states, k - 1);
    }
  }

  /**
   Freshness: a subscriber that has received its r-th event reads a bundle at least r changes newer
   than the one at its subscription, and the newest one if nothing is on its way to it.
   */
  lemma EventsBringNews(states: seq<Source>, events: seq<Event>, i: nat, j: nat, k: nat)
    requires Run(FileSource, states, events) && SubscribedAt(states, events, i, j) && j < k < |states|
    ensures i < |states[k].subscribers|
    ensures var before, now := Versions(states, j), Versions(states, k);
      && before <= now && before[|before| - 1] == states[j].pem && now[|now| - 1] == states[k].pem
      && |now| >= |before| + states[k].subscribers[i].received
    ensures states[k].subscribers[i].senders == 0 ==>
      |Versions(states, k)| == |Versions(states, j)| + states[k].subscribers[i].received
  {
    BroadcastConserved(states, events, i, j, k);
    VersionsCount(states, j, k);
    VersionsLast(states, j);
    VersionsLast(states, k);
  }
}
