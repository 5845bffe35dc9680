/**
 * The advertisement callback built by createAdvHandler: an advertisement is
 * kept when its local name contains the marker "Co" (case-sensitive,
 * contiguous) and is non-empty; a kept advertisement becomes a BLEDevice
 * stamped with the capture time, which is passed in instead of read from
 * the clock.
 */
module AdvFilter {
  import opened Records

  /** The name marker the callback looks for. */
  const Marker: string := "Co"

  /** What the callback reads from a decoded advertisement. */
  datatype Advertisement = Advertisement(localName: string, rssi: int)

  predicate IsPrefix(p: string, s: string)
  {
    |p| <= |s| && s[..|p|] == p
  }

  /** Go's strings.Contains(s, sub): sub starts at some position of s. */
  predicate Contains(s: string, sub: string): (found: bool)
    ensures found ==> |sub| <= |s|
    ensures sub == [] ==> found
    decreases |s|
  {
    IsPrefix(sub, s) || (|s| > 0 && Contains(s[1..], sub))
  }

  /** Reference definition: sub occurs in s starting at index i. */
  ghost predicate OccursAt(s: string, sub: string, i: int)
  {
    0 <= i && i + |sub| <= |s| && s[i..i + |sub|] == sub
  }

  /** The recursive search finds exactly the occurrences of the reference definition. */
  lemma {:induction false} ContainsIffOccurs(s: string, sub: string)
    ensures Contains(s, sub) <==> exists i :: OccursAt(s, sub, i)
    decreases |s|
  {
    assert IsPrefix(sub, s) <==> OccursAt(s, sub, 0);
    if IsPrefix(sub, s) {
    } else if |s| == 0 {
      assert |sub| > 0;
    } else {
      ContainsIffOccurs(s[1..], sub);
      forall i | OccursAt(s[1..], sub, i)
        ensures OccursAt(s, sub, i + 1)
      {
        assert s[i + 1..i + 1 + |sub|] == s[1..][i..i + |sub|];
      }
      forall i | OccursAt(s, sub, i)
        ensures i >= 1 && OccursAt(s[1..], sub, i - 1)
      {
        assert i != 0;
        assert s[i..i + |sub|] == s[1..][i - 1..i - 1 + |sub|];
      }
    }
  }

  /** The test on main.go:134. */
  predicate Accepts(a: Advertisement): (ok: bool)
    ensures ok ==> |a.localName| >= |Marker|
  {
    Contains(a.localName, Marker) && a.localName != ""
  }

  /**
   * The callback body on main.go:133-137: an accepted advertisement yields the
   * observation sent on the channel, a rejected one yields nothing.
   */
  function Handle(a: Advertisement, now: Nanos): (r: Option<BLEDevice>)
    ensures r.Some? <==> Accepts(a)
    ensures r.Some? ==> r.value.name == a.localName && r.value.rssi == a.rssi && r.value.t == now
    ensures r.Some? ==> r.value.name != ""
  {
    if Accepts(a) then Some(BLEDevice(a.localName, a.rssi, now)) else None
  }

  /** The marker "Co" starts at index i of s. */
  predicate MarkerAt(s: string, i: int)
  {
    0 <= i && i + 1 < |s| && s[i] == 'C' && s[i + 1] == 'o'
  }

  /**
   * The non-emptiness test is redundant: a name contains the marker exactly
   * when some character 'C' is immediately followed by 'o'.
   */
  lemma AcceptsIffMarkerAt(a: Advertisement)
    ensures Accepts(a) <==> Contains(a.localName, Marker)
    ensures Accepts(a) <==> exists i :: MarkerAt(a.localName, i)
  {
    var s := a.localName;
    ContainsIffOccurs(s, Marker);
    forall i | OccursAt(s, Marker, i)
      ensures MarkerAt(s, i)
    {
      assert s[i..i + 2][0] == s[i] && s[i..i + 2][1] == s[i + 1];
    }
    forall i | MarkerAt(s, i)
      ensures OccursAt(s, Marker, i)
    {
      assert s[i..i + 2] == [s[i], s[i + 1]];
    }
  }

  /** A name without a capital 'C' is dropped, whatever else it holds (case sensitivity). */
  lemma RejectsWithoutCapitalC(a: Advertisement, now: Nanos)
    requires forall i :: 0 <= i < |a.localName| ==> a.localName[i] != 'C'
    ensures Handle(a, now) == None
  {
    AcceptsIffMarkerAt(a);
  }

  /** Handle on three concrete names: empty, lower-case marker, and a marker-prefixed name. */
  lemma HandleExamples(now: Nanos)
    ensures Handle(Advertisement("", -60), now) == None
    ensures Handle(Advertisement("co-sensor", -60), now) == None
    ensures Handle(Advertisement("CoSensor", -60), now) == Some(BLEDevice("CoSensor", -60, now))
  {
    RejectsWithoutCapitalC(Advertisement("co-sensor", -60), now);
    assert IsPrefix(Marker, "CoSensor");
  }
}
