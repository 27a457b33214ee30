/**
 * The wake cycle (src/main.cpp:16-17, 107-130).
 *
 * Every wake samples the PIR pin, arms the next wake source from the reading
 * (a 20 s timer while occupied, a high level on the pin while vacant), and
 * compares the reading, as 0 or 1, with the value last reported, which lives
 * in memory that survives deep sleep and starts at -1 after a cold boot. On a
 * mismatch it calls the reporter until one call succeeds and only then stores
 * the reading. The retry loop, unbounded in the firmware, runs here over a
 * finite sequence of network answers: when they run out before a call
 * succeeds, the cycle ends in `Retrying`, the firmware still inside its loop.
 */
module Presence {
  import opened Wrappers
  import opened Settings
  import opened Report

  /** The retained value before anything has been reported. */
  const Unknown := -1

  /** The GPIO the PIR sensor is wired to. */
  const PirPin := 1

  /** The timer wake-up armed while occupied: 20 s, in microseconds. */
  const OccupiedPollMicros := 20 * 1000000

  datatype Level = Low | High

  /** The wake source armed before sleeping; exactly one is armed per cycle. */
  datatype WakeSource = TimerWake(micros: nat) | GpioWake(pin: nat, level: Level)

  /** How the cycle ended: no report needed, reported, or still retrying when the answers ran out. */
  datatype Status = Unchanged | Reported | Retrying

  /** What one wake cycle did: the wake source it armed, the reporter calls it made, and the retained value it left. */
  datatype Cycle = Cycle(armed: WakeSource, attempts: nat, status: Status, retained: int)

  /** The reading as the 0/1 value kept in retained memory. */
  function Bit(exist: bool): (b: int)
    ensures b == 0 || b == 1
    ensures (b == 1) == exist
  {
    if exist then 1 else 0
  }

  /** The wake source for a reading: a timer while occupied, a high level on the PIR pin while vacant. */
  function ArmWake(exist: bool): (w: WakeSource)
    ensures w.TimerWake? <==> exist
    ensures w.TimerWake? ==> w.micros == 20_000_000
    ensures w.GpioWake? ==> w.pin == PirPin && w.level == High
  {
    if exist then TimerWake(OccupiedPollMicros) else GpioWake(PirPin, High)
  }

  /** The index of the first successful reporter call among `net`, if any. */
  function FirstDelivered(cfg: Config, net: seq<Attempt>): (r: Option<nat>)
    ensures r.Some? ==> r.value < |net| && Delivers(cfg, net[r.value])
    ensures forall j :: 0 <= j < |net| && (r.None? || j < r.value) ==> !Delivers(cfg, net[j])
  {
    if net == [] then None
    else if Delivers(cfg, net[0]) then Some(0)
    else
      match FirstDelivered(cfg, net[1..])
      case None => None
      case Some(k) => Some(k + 1)
  }

  /**
   * One wake cycle from the retained value `retained`, reading `exist` from the
   * pin, with `net` the network answers of successive reporter calls.
   */
  function WakeCycle(retained: int, cfg: Config, exist: bool, net: seq<Attempt>): (c: Cycle)
    ensures c.armed == ArmWake(exist)
    ensures c.attempts <= |net|
    ensures (c.status == Unchanged) == (Bit(exist) == retained)
    ensures |net| > 0 ==> (c.attempts == 0) == (Bit(exist) == retained)
    ensures c.retained == (if c.status == Reported then Bit(exist) else retained)
  {
    var armed := ArmWake(exist);
    if Bit(exist) == retained then Cycle(armed, 0, Unchanged, retained)
    else
      match FirstDelivered(cfg, net)
      case Some(k) => Cycle(armed, k + 1, Reported, Bit(exist))
      case None => Cycle(armed, |net|, Retrying, retained)
  }

  /** The results of calling the reporter once on each of `net`, in order. */
  function PostEach(cfg: Config, mac: string, exist: bool, net: seq<Attempt>): seq<PostResult>
  {
    if net == [] then [] else PostEach(cfg, mac, exist, net[..|net| - 1]) + [Post(cfg, mac, exist, net[|net| - 1])]
  }

  /** The `j`-th of `PostEach` is the reporter's result on the `j`-th answer. */
  lemma {:induction false} PostEachAt(cfg: Config, mac: string, exist: bool, net: seq<Attempt>, j: nat)
    requires j < |net|
    ensures |PostEach(cfg, mac, exist, net)| == |net|
    ensures PostEach(cfg, mac, exist, net)[j] == Post(cfg, mac, exist, net[j])
  {
    var init := net[..|net| - 1];
    if j < |init| {
      PostEachAt(cfg, mac, exist, init, j);
      assert init[j] == net[j];
    } else if init != [] {
      PostEachAt(cfg, mac, exist, init, 0);
    }
  }

  /** The device's retained memory and its `loop`. */
  class PresenceSensor {
    /** The 0/1 reading last reported, or Unknown; survives deep sleep, not a cold boot. */
    var lastExist: int

    /** Power-on: retained memory holds its initial value. */
    constructor ColdBoot()
      ensures lastExist == Unknown
    {
      lastExist := Unknown;
    }

    /**
     * One pass of `loop`: sample, arm, compare, and on a change call the
     * reporter once per element of `net` until a call succeeds. `calls` are
     * the results of those calls, in order.
     */
    method Wake(cfg: Config, mac: string, exist: bool, net: seq<Attempt>)
      returns (armed: WakeSource, attempts: nat, status: Status, calls: seq<PostResult>)
      modifies this
      ensures Cycle(armed, attempts, status, lastExist) == WakeCycle(old(lastExist), cfg, exist, net)
      ensures attempts <= |net| && calls == PostEach(cfg, mac, exist, net[..attempts])
      ensures |calls| == attempts && forall j :: 0 <= j < attempts ==> calls[j] == Post(cfg, mac, exist, net[j])
    {
      armed := ArmWake(exist);
      var curr := Bit(exist);
      attempts := 0;
      status := Unchanged;
      calls := [];
      if curr != lastExist {
        var delivered;
        delivered, calls := PostUntilDelivered(cfg, mac, exist, net);
        attempts := |calls|;
        if delivered {
          lastExist := curr;
          status := Reported;
        } else {
          status := Retrying;
        }
      }
      forall j | 0 <= j < attempts
        ensures calls[j] == Post(cfg, mac, exist, net[j])
      {
        PostEachAt(cfg, mac, exist, net[..attempts], j);
      }
    }
  }

  /**
   * The retry loop `while (!post(exist))`: calls the reporter on successive
   * answers of `net` until a call succeeds or the answers run out. It stops
   * exactly at the first answer that is delivered.
   */
  method PostUntilDelivered(cfg: Config, mac: string, exist: bool, net: seq<Attempt>)
    returns (delivered: bool, calls: seq<PostResult>)
    ensures |calls| <= |net| && calls == PostEach(cfg, mac, exist, net[..|calls|])
    ensures delivered ==> 1 <= |calls| && FirstDelivered(cfg, net) == Some(|calls| - 1)
    ensures !delivered ==> |calls| == |net| && FirstDelivered(cfg, net) == None
  {
    delivered := false;
    calls := [];
    var n := 0;
    while !delivered && n < |net|
      invariant n <= |net| && |calls| == n
      invariant calls == PostEach(cfg, mac, exist, net[..n])
      invariant forall j :: 0 <= j < n && (!delivered || j < n - 1) ==> !Delivers(cfg, net[j])
      invariant delivered ==> 0 < n && Delivers(cfg, net[n - 1])
    {
      var r := Post(cfg, mac, exist, net[n]);
      assert net[..n + 1][..n] == net[..n];
      calls := calls + [r];
      delivered := r.ok;
      n := n + 1;
    }
    FirstDeliveredEndsRetries(cfg, net, n, delivered);
  }

  /** Where a retry loop over `net` stops: at the first delivered answer, or after all of them. */
  lemma FirstDeliveredEndsRetries(cfg: Config, net: seq<Attempt>, n: nat, delivered: bool)
    requires n <= |net|
    requires forall j :: 0 <= j < n && (!delivered || j < n - 1) ==> !Delivers(cfg, net[j])
    requires delivered ==> 0 < n && Delivers(cfg, net[n - 1])
    requires !delivered ==> n == |net|
    ensures delivered ==> FirstDelivered(cfg, net) == Some(n - 1)
    ensures !delivered ==> FirstDelivered(cfg, net) == None
  {
  }

  /** A report is attempted exactly when the reading differs from the retained value; otherwise nothing changes. */
  lemma ReportIffChanged(retained: int, cfg: Config, exist: bool, net: seq<Attempt>)
    ensures var c := WakeCycle(retained, cfg, exist, net);
      && (c.status != Unchanged <==> Bit(exist) != retained)
      && (c.status == Unchanged ==> c.attempts == 0 && c.retained == retained)
  {
  }

  /** After a cold boot the first wake always reports, whatever the reading. */
  lemma ColdBootAlwaysReports(cfg: Config, exist: bool, net: seq<Attempt>)
    ensures WakeCycle(Unknown, cfg, exist, net).status != Unchanged
  {
  }

  /**
   * The retained value changes only on a successful report, to the reading, and
   * only after the last call made succeeded with every earlier one failing;
   * a cycle that is still retrying has failed every call and kept its value.
   */
  lemma RetainedOnlyAfterSuccess(retained: int, cfg: Config, exist: bool, net: seq<Attempt>)
    ensures var c := WakeCycle(retained, cfg, exist, net);
      && (c.retained != retained ==> c.status == Reported)
      && (c.status == Reported ==>
            && c.retained == Bit(exist)
            && 1 <= c.attempts <= |net|
            && Delivers(cfg, net[c.attempts - 1])
            && forall j :: 0 <= j < c.attempts - 1 ==> !Delivers(cfg, net[j]))
      && (c.status == Retrying ==>
            && c.retained == retained
            && c.attempts == |net|
            && forall j :: 0 <= j < |net| ==> !Delivers(cfg, net[j]))
  {
  }

  /**
   * The last call of a reported cycle posts the record of this wake's reading,
   * with the configured measurement and the device tag, and then disconnects.
   */
  lemma ReportedCyclePostsReading(retained: int, cfg: Config, mac: string, exist: bool, net: seq<Attempt>)
    requires WakeCycle(retained, cfg, exist, net).status == Reported
    ensures var k := WakeCycle(retained, cfg, exist, net).attempts;
      1 <= k <= |net| && EndsPosting(Post(cfg, mac, exist, net[k - 1]), Payload(cfg.measurement, mac, exist))
  {
    var k := WakeCycle(retained, cfg, exist, net).attempts;
    assert 1 <= k <= |net| && Delivers(cfg, net[k - 1]) by {
      RetainedOnlyAfterSuccess(retained, cfg, exist, net);
    }
    DeliveredPostSendsReading(cfg, mac, exist, net[k - 1]);
  }

  /** The wake source depends on the reading only, not on the retained value or the network. */
  lemma ArmedBeforeComparison(retained: int, other: int, cfg: Config, exist: bool, net: seq<Attempt>, otherNet: seq<Attempt>)
    ensures WakeCycle(retained, cfg, exist, net).armed == WakeCycle(other, cfg, exist, otherNet).armed == ArmWake(exist)
  {
  }

  /** Without credentials a changed reading is never reported: the cycle keeps retrying. */
  lemma MissingCredentialsKeepRetrying(retained: int, cfg: Config, exist: bool, net: seq<Attempt>)
    requires cfg.ssid == "" || cfg.psk == ""
    requires Bit(exist) != retained
    ensures WakeCycle(retained, cfg, exist, net).status == Retrying
  {
  }

  /** Scenario: occupied after a cold boot, two failed calls, then success on the third. */
  lemma ThirdAttemptSucceeds(cfg: Config, net: seq<Attempt>)
    requires |net| >= 3
    requires !Delivers(cfg, net[0]) && !Delivers(cfg, net[1]) && Delivers(cfg, net[2])
    ensures WakeCycle(Unknown, cfg, true, net) == Cycle(TimerWake(20_000_000), 3, Reported, 1)
    ensures WakeCycle(Unknown, cfg, true, net[..2]) == Cycle(TimerWake(20_000_000), 2, Retrying, Unknown)
  {
  }

  /** The input of one wake: the pin reading and the network answers of its reporter calls. */
  datatype WakeInput = WakeInput(exist: bool, net: seq<Attempt>)

  /**
   * The number of wakes that enter the reporting state, over a series of wakes
   * from retained value `retained`. A cycle that is still retrying never
   * sleeps, so no wake follows it.
   */
  function ReportingWakes(retained: int, cfg: Config, wakes: seq<WakeInput>): nat
    decreases |wakes|
  {
    if wakes == [] then 0
    else
      var c := WakeCycle(retained, cfg, wakes[0].exist, wakes[0].net);
      match c.status
      case Unchanged => ReportingWakes(c.retained, cfg, wakes[1..])
      case Reported => 1 + ReportingWakes(c.retained, cfg, wakes[1..])
      case Retrying => 1
  }

  /** The number of times the reading changes between consecutive wakes. */
  function PinChanges(wakes: seq<WakeInput>): nat
  {
    if |wakes| < 2 then 0
    else (if wakes[0].exist != wakes[1].exist then 1 else 0) + PinChanges(wakes[1..])
  }

  /** Every cycle that completes leaves the reading as the retained value. */
  lemma CompletedCycleRetainsReading(retained: int, cfg: Config, exist: bool, net: seq<Attempt>)
    requires WakeCycle(retained, cfg, exist, net).status != Retrying
    ensures WakeCycle(retained, cfg, exist, net).retained == Bit(exist)
  {
  }

  /**
   * Reports never exceed the changes of the reading, plus one when the first
   * reading differs from the retained value.
   */
  lemma {:induction false} ReportingWakesBoundedByChanges(retained: int, cfg: Config, wakes: seq<WakeInput>)
    decreases |wakes|
    ensures ReportingWakes(retained, cfg, wakes) <=
      (if wakes != [] && Bit(wakes[0].exist) != retained then 1 else 0) + PinChanges(wakes)
  {
    if wakes != [] {
      var c := WakeCycle(retained, cfg, wakes[0].exist, wakes[0].net);
      if c.status != Retrying {
        assert c.retained == Bit(wakes[0].exist);
        ReportingWakesBoundedByChanges(c.retained, cfg, wakes[1..]);
        if |wakes| >= 2 {
          assert wakes[1..][0] == wakes[1];
        }
      }
    }
  }

  /** From a cold boot: at most one report for the unknown start and one per change of the reading. */
  lemma ColdBootReportsAtMostChangesPlusOne(cfg: Config, wakes: seq<WakeInput>)
    ensures ReportingWakes(Unknown, cfg, wakes) <= 1 + PinChanges(wakes)
  {
    ReportingWakesBoundedByChanges(Unknown, cfg, wakes);
  }

  /** When every wake's network eventually accepts a report, every change of the reading is reported exactly once. */
  lemma {:induction false} ReportingWakesMatchChanges(retained: int, cfg: Config, wakes: seq<WakeInput>)
    decreases |wakes|
    requires forall i :: 0 <= i < |wakes| ==> FirstDelivered(cfg, wakes[i].net).Some?
    ensures ReportingWakes(retained, cfg, wakes) ==
      (if wakes != [] && Bit(wakes[0].exist) != retained then 1 else 0) + PinChanges(wakes)
  {
    if wakes != [] {
      var c := WakeCycle(retained, cfg, wakes[0].exist, wakes[0].net);
      assert FirstDelivered(cfg, wakes[0].net).Some?;
      assert c.status != Retrying && c.retained == Bit(wakes[0].exist);
      assert forall i :: 0 <= i < |wakes[1..]| ==> wakes[1..][i] == wakes[i + 1];
      ReportingWakesMatchChanges(c.retained, cfg, wakes[1..]);
      if |wakes| >= 2 {
        assert wakes[1..][0] == wakes[1];
      }
    }
  }

  /**
   * A client of the class: a cold boot while occupied, whose first call gets
   * through, posts `exist=1` once; the next occupied wake makes no call.
   */
  method OccupiedTwice(cfg: Config, mac: string, net: seq<Attempt>)
    returns (first: seq<PostResult>, second: seq<PostResult>)
    requires |net| >= 1 && Delivers(cfg, net[0])
    ensures |first| == 1 && first[0].ok
    ensures EndsPosting(first[0], cfg.measurement + ",id=" + mac + " exist=1")
    ensures second == []
  {
    var sensor := new PresenceSensor.ColdBoot();
    var armed, attempts, status;
    armed, attempts, status, first := sensor.Wake(cfg, mac, true, net);
    assert status == Reported && attempts == 1 && sensor.lastExist == 1;
    assert armed == TimerWake(20_000_000);
    DeliveredPostSendsReading(cfg, mac, true, net[0]);
    armed, attempts, status, second := sensor.Wake(cfg, mac, true, net);
    assert status == Unchanged && sensor.lastExist == 1;
  }
}
