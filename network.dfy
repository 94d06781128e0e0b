/**
 * `NetworkMonitor`: the network callback's set of usable networks, the
 * initial probe, and the `distinctUntilChanged` stage applied to what the
 * callback sends.
 */
module Connectivity {
  import opened Wrappers

  /** The two capability bits the monitor looks at. */
  datatype Capabilities = Capabilities(internet: bool, validated: bool)

  /** INTERNET and VALIDATED are both present. */
  predicate HasInternet(c: Capabilities) {
    c.internet && c.validated
  }

  /**
   * `checkInitialConnection()`: false without an active network or without
   * its capabilities, otherwise whether it has INTERNET and VALIDATED.
   * `active` and `capabilitiesOf` stand for the connectivity manager's answers.
   */
  function CheckInitialConnection(active: Option<int>, capabilitiesOf: int -> Option<Capabilities>): (b: bool)
    ensures active.None? ==> !b
    ensures active.Some? && capabilitiesOf(active.value).None? ==> !b
    ensures active.Some? && capabilitiesOf(active.value).Some? ==>
      (b <==> capabilitiesOf(active.value).value.internet && capabilitiesOf(active.value).value.validated)
  {
    match active
    case None => false
    case Some(n) =>
      match capabilitiesOf(n)
      case None => false
      case Some(c) => HasInternet(c)
  }

  /** `isCurrentlyConnected()`: the same probe, on demand. */
  function IsCurrentlyConnected(active: Option<int>, capabilitiesOf: int -> Option<Capabilities>): (b: bool)
    ensures b == CheckInitialConnection(active, capabilitiesOf)
  {
    CheckInitialConnection(active, capabilitiesOf)
  }

  // ----- distinctUntilChanged -----

  /** `distinctUntilChanged()` over everything sent so far: a value is passed on only when it differs from the last one passed on. */
  function Distinct(xs: seq<bool>): seq<bool>
    decreases |xs|
  {
    if xs == [] then []
    else
      var prev := Distinct(xs[..|xs| - 1]);
      var x := xs[|xs| - 1];
      if prev != [] && prev[|prev| - 1] == x then prev else prev + [x]
  }

  /** No two neighbours of `ys` are equal. */
  predicate NoRepeats(ys: seq<bool>) {
    forall i :: 0 <= i < |ys| - 1 ==> ys[i] != ys[i + 1]
  }

  /** The collector never sees the same value twice in a row. */
  lemma {:induction false} DistinctNoRepeats(xs: seq<bool>)
    ensures NoRepeats(Distinct(xs))
    decreases |xs|
  {
    if xs != [] {
      DistinctNoRepeats(xs[..|xs| - 1]);
    }
  }

  /** Something is passed on once anything is sent, and the latest value passed on is the latest value sent. */
  lemma {:induction false} DistinctKeepsLatest(xs: seq<bool>)
    ensures |Distinct(xs)| <= |xs|
    ensures Distinct(xs) == [] <==> xs == []
    ensures xs != [] ==> Distinct(xs)[|Distinct(xs)| - 1] == xs[|xs| - 1]
    decreases |xs|
  {
    if xs != [] {
      DistinctKeepsLatest(xs[..|xs| - 1]);
    }
  }

  /** A stream without repeats passes through unchanged. */
  lemma {:induction false} DistinctOfNoRepeats(xs: seq<bool>)
    requires NoRepeats(xs)
    ensures Distinct(xs) == xs
    decreases |xs|
  {
    if xs != [] {
      var p := xs[..|xs| - 1];
      assert NoRepeats(p) by {
        forall i | 0 <= i < |p| - 1 ensures p[i] != p[i + 1] {
          assert p[i] == xs[i] && p[i + 1] == xs[i + 1];
        }
      }
      DistinctOfNoRepeats(p);
      assert xs == p + [xs[|xs| - 1]];
    }
  }

  /** Applying the stage twice is the same as once. */
  lemma DistinctIdempotent(xs: seq<bool>)
    ensures Distinct(Distinct(xs)) == Distinct(xs)
  {
    DistinctNoRepeats(xs);
    DistinctOfNoRepeats(Distinct(xs));
  }

  /** Sending a value equal to the last one sent passes nothing on. */
  lemma RepeatSuppressed(xs: seq<bool>)
    requires xs != []
    ensures Distinct(xs + [xs[|xs| - 1]]) == Distinct(xs)
  {
    var ys := xs + [xs[|xs| - 1]];
    assert ys[..|ys| - 1] == xs;
    assert ys[|ys| - 1] == xs[|xs| - 1];
    DistinctKeepsLatest(xs);
    var prev := Distinct(xs);
    assert prev != [] && prev[|prev| - 1] == ys[|ys| - 1];
  }

  // ----- One collection of `isConnected` -----

  /**
   * One collection of the `isConnected` flow: the callback's network set,
   * whether the callback is registered, every value the callback sent
   * (`sent`) and what the collector receives (`received`).
   */
  class ConnectivityCollection {
    var networks: set<int>
    var registered: bool
    var sent: seq<bool>
    var received: seq<bool>

    ghost predicate Valid()
      reads this
    {
      sent != [] && received == Distinct(sent)
    }

    /** Registering the callback, then sending the initial probe's answer. */
    constructor (initial: bool)
      ensures Valid()
      ensures networks == {} && registered
      ensures sent == [initial] && received == [initial]
    {
      networks := {};
      registered := true;
      sent := [initial];
      received := [initial];
      new;
      assert sent[..0] == [];
    }

    /** `trySend(v)` through `distinctUntilChanged`. */
    method Send(v: bool)
      requires Valid()
      modifies this
      ensures Valid()
      ensures sent == old(sent) + [v]
      ensures received != [] && received[|received| - 1] == v
      ensures networks == old(networks) && registered == old(registered)
    {
      var s := sent + [v];
      assert s[..|s| - 1] == sent;
      if received == [] || received[|received| - 1] != v {
        received := received + [v];
      }
      sent := s;
      DistinctKeepsLatest(sent);
    }

    /** `onAvailable(network)`: the network is added without looking at its capabilities. */
    method OnAvailable(n: int)
      requires Valid() && registered
      modifies this
      ensures Valid() && registered
      ensures networks == old(networks) + {n}
      ensures sent == old(sent) + [true]
      ensures received[|received| - 1] == (networks != {})
    {
      networks := networks + {n};
      Send(networks != {});
    }

    /** `onLost(network)`. */
    method OnLost(n: int)
      requires Valid() && registered
      modifies this
      ensures Valid() && registered
      ensures networks == old(networks) - {n}
      ensures sent == old(sent) + [networks != {}]
      ensures received[|received| - 1] == (networks != {})
    {
      networks := networks - {n};
      Send(networks != {});
    }

    /** `onCapabilitiesChanged(network, capabilities)`. */
    method OnCapabilitiesChanged(n: int, caps: Capabilities)
      requires Valid() && registered
      modifies this
      ensures Valid() && registered
      ensures networks == if HasInternet(caps) then old(networks) + {n} else old(networks) - {n}
      ensures sent == old(sent) + [networks != {}]
      ensures received[|received| - 1] == (networks != {})
    {
      if HasInternet(caps) {
        networks := networks + {n};
      } else {
        networks := networks - {n};
      }
      Send(networks != {});
    }

    /** `awaitClose { unregisterNetworkCallback(callback) }`: the one registration is undone. */
    method Close()
      requires Valid() && registered
      modifies this
      ensures Valid() && !registered
      ensures networks == old(networks) && sent == old(sent) && received == old(received)
    {
      registered := false;
    }
  }

  /** A client run: a network appears and is then lost; the collector sees each change once. */
  method ConnectThenLose(initial: bool) returns (received: seq<bool>)
    ensures !initial ==> received == [false, true, false]
    ensures initial ==> received == [true, false]
  {
    var c := new ConnectivityCollection(initial);
    c.OnAvailable(7);
    c.OnAvailable(7);
    c.OnLost(7);
    c.Close();
    received := c.received;
    assert c.sent == [initial, true, true, false];
    assert [initial, true, true, false][..3] == [initial, true, true];
    assert [initial, true, true][..2] == [initial, true];
    assert [initial, true][..1] == [initial];
    assert [initial][..0] == [];
  }
}
