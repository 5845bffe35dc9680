/**
 * The acquisition pipeline end to end: the scan callback filters each
 * advertisement, accepted observations go through the FIFO channel in the
 * order they were sent, and the aggregator folds them into the store.
 * The channel is modelled by that order alone.
 */
module Pipeline {
  import opened Records
  import opened AdvFilter
  import Acquirer

  /** A callback invocation: the advertisement and the clock reading taken when it is accepted. */
  datatype Event = Event(ad: Advertisement, now: Nanos)

  /** The observations the callback sends on the channel, in callback order. */
  function Emitted(events: seq<Event>): (sent: seq<BLEDevice>)
    ensures |sent| <= |events|
    ensures forall i :: 0 <= i < |sent| ==> Contains(sent[i].name, Marker) && sent[i].name != ""
  {
    if events == [] then []
    else
      var rest := Emitted(events[1..]);
      match Handle(events[0].ad, events[0].now)
      case Some(d) => [d] + rest
      case None => rest
  }

  /** A single callback sends exactly the observation Handle builds, or nothing. */
  lemma EmittedOne(e: Event)
    ensures Emitted([e]) == (if Accepts(e.ad) then [BLEDevice(e.ad.localName, e.ad.rssi, e.now)] else [])
  {
    assert [e][1..] == [];
  }

  /** Filtering distributes over concatenation: later callbacks never reorder earlier ones. */
  lemma {:induction false} EmittedAppend(e1: seq<Event>, e2: seq<Event>)
    ensures Emitted(e1 + e2) == Emitted(e1) + Emitted(e2)
    decreases |e1|
  {
    if e1 == [] {
      assert e1 + e2 == e2;
    } else {
      assert (e1 + e2)[0] == e1[0];
      assert (e1 + e2)[1..] == e1[1..] + e2;
      EmittedAppend(e1[1..], e2);
    }
  }

  /** The store at shutdown, after the aggregator has drained every observation sent. */
  function Run(events: seq<Event>): (store: Acquirer.Store)
    ensures forall name :: name in store ==> store[name] != []
  {
    Acquirer.Aggregate(Emitted(events))
  }

  /** Only names that pass the filter become keys, and each has at least one sample. */
  lemma RunKeysAccepted(events: seq<Event>)
    ensures forall name :: name in Run(events) ==> Contains(name, Marker) && name != "" && Run(events)[name] != []
  {
    Acquirer.AggregateKeys(Emitted(events));
  }

  /**
   * Two readings of "CoSensor" one second apart, then one of "Other" stamped
   * half a second: the store holds the two CoSensor samples in order and no
   * entry for Other.
   */
  lemma ScenarioTwoDevices()
    ensures Run([Event(Advertisement("CoSensor", -40), 0),
                 Event(Advertisement("CoSensor", -42), NanosPerSecond),
                 Event(Advertisement("Other", -50), NanosPerSecond / 2)])
         == map["CoSensor" := [Row(0, -40), Row(NanosPerSecond, -42)]]
  {
    var events := [Event(Advertisement("CoSensor", -40), 0),
                   Event(Advertisement("CoSensor", -42), NanosPerSecond),
                   Event(Advertisement("Other", -50), NanosPerSecond / 2)];
    var d1, d2 := BLEDevice("CoSensor", -40, 0), BLEDevice("CoSensor", -42, NanosPerSecond);
    assert IsPrefix(Marker, "CoSensor");
    RejectsWithoutCapitalC(Advertisement("Other", -50), NanosPerSecond / 2);
    assert Emitted(events[2..][1..]) == [] by { assert events[2..][1..] == []; }
    assert Emitted(events[2..]) == [];
    assert Emitted(events[1..][1..]) == [] by { assert events[1..][1..] == events[2..]; }
    assert Emitted(events[1..]) == [d2];
    assert Emitted(events) == [d1, d2];
    Acquirer.AggregateAppendsAtTail([], d1);
    assert [] + [d1] == [d1];
    var m1 := Acquirer.Aggregate([d1]);
    assert m1.Keys == {"CoSensor"};
    assert m1["CoSensor"] == [Row(0, -40)];
    Acquirer.AggregateAppendsAtTail([d1], d2);
    assert [d1] + [d2] == [d1, d2];
    var m2 := Acquirer.Aggregate([d1, d2]);
    assert m2.Keys == {"CoSensor"};
    assert m2["CoSensor"] == [Row(0, -40), Row(NanosPerSecond, -42)];
    assert Run(events) == m2;
  }
}
