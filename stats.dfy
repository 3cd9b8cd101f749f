/**
 * The receiver's behaviour as functions on values: what one datagram does to
 * the acknowledgment latch and to the per-port traffic counters, and what a
 * run of datagrams does. The Manager class in SsPy is proved against these.
 * JSON parsing is abstract: `loads` maps a stat body to its (key, delta)
 * items in dictionary order, or None when json.loads would raise.
 */
module Stats {
  import opened Codec

  type StatItems = seq<(string, int)>

  type Loads = string -> Option<StatItems>

  /** Traffic after crediting some items, and whether `int(port)` raised on the way. */
  datatype Credited = Credited(traffic: map<int, int>, crashed: bool)

  /** One `(port, delta)` item: known ports accumulate, unknown ones are dropped. */
  function CreditOne(t: map<int, int>, item: (string, int)): (r: Credited)
    ensures r.crashed <==> ParseInt(item.0).None?
    ensures r.traffic.Keys == t.Keys
  {
    match ParseInt(item.0)
    case None => Credited(t, true)
    case Some(p) => Credited(if p in t then t[p := t[p] + item.1] else t, false)
  }

  /** One item adds its delta to the port it names, when that port is known, and to no other. */
  lemma CreditOnePort(t: map<int, int>, item: (string, int), p: int)
    requires p in t && !CreditOne(t, item).crashed
    ensures CreditOne(t, item).traffic[p] == t[p] + (if ParseInt(item.0) == Some(p) then item.1 else 0)
  {
  }

  /** The items in order, stopping at the first key that is not an integer. */
  function Credit(t: map<int, int>, items: StatItems): Credited
  {
    if items == [] then Credited(t, false)
    else
      var before := Credit(t, items[..|items| - 1]);
      if before.crashed then before else CreditOne(before.traffic, items[|items| - 1])
  }

  /** The sum of the deltas addressed to `port`. */
  function DeltaFor(items: StatItems, port: int): int
  {
    if items == [] then 0
    else
      var last := items[|items| - 1];
      DeltaFor(items[..|items| - 1], port) + (if ParseInt(last.0) == Some(port) then last.1 else 0)
  }

  predicate AllKeysParse(items: StatItems)
  {
    forall i :: 0 <= i < |items| ==> ParseInt(items[i].0).Some?
  }

  /** A stat frame never adds or removes a registry key. */
  lemma {:induction false} CreditKeys(t: map<int, int>, items: StatItems)
    ensures Credit(t, items).traffic.Keys == t.Keys
  {
    if items != [] {
      CreditKeys(t, items[..|items| - 1]);
    }
  }

  /** Crediting crashes exactly when some key is not an integer. */
  lemma {:induction false} CreditCrashes(t: map<int, int>, items: StatItems)
    ensures Credit(t, items).crashed <==> !AllKeysParse(items)
  {
    if items != [] {
      var init := items[..|items| - 1];
      CreditCrashes(t, init);
      assert AllKeysParse(items) <==> AllKeysParse(init) && ParseInt(items[|items| - 1].0).Some? by {
        if AllKeysParse(init) && ParseInt(items[|items| - 1].0).Some? {
          forall i | 0 <= i < |items| ensures ParseInt(items[i].0).Some? {
            if i < |init| { assert items[i] == init[i]; }
          }
        }
        if AllKeysParse(items) {
          forall i | 0 <= i < |init| ensures ParseInt(init[i].0).Some? {
            assert init[i] == items[i];
          }
        }
      }
    }
  }

  /**
   * With every key an integer, each known port ends at its old traffic plus
   * the sum of its deltas; ports not mentioned keep their traffic.
   */
  lemma {:induction false} CreditTotals(t: map<int, int>, items: StatItems)
    requires AllKeysParse(items)
    ensures forall p :: p in t ==> p in Credit(t, items).traffic && Credit(t, items).traffic[p] == t[p] + DeltaFor(items, p)
  {
    if items != [] {
      var init := items[..|items| - 1];
      assert AllKeysParse(init) by {
        forall i | 0 <= i < |init| ensures ParseInt(init[i].0).Some? { assert init[i] == items[i]; }
      }
      CreditTotals(t, init);
      CreditCrashes(t, init);
      CreditKeys(t, init);
    }
  }

  /** Once crediting has crashed, later items change nothing. */
  lemma {:induction false} CreditStopsAtCrash(t: map<int, int>, items: StatItems, k: nat)
    requires k <= |items| && Credit(t, items[..k]).crashed
    ensures Credit(t, items) == Credit(t, items[..k])
    decreases |items| - k
  {
    if k < |items| {
      var init := items[..|items| - 1];
      assert init[..k] == items[..k];
      CreditStopsAtCrash(t, init, k);
    } else {
      assert items[..k] == items;
    }
  }

  /**
   * A key that is not an integer stops the frame, but the items before it
   * have already been credited.
   */
  lemma CreditPartialOnCrash(t: map<int, int>, items: StatItems, k: nat)
    requires k < |items| && AllKeysParse(items[..k]) && ParseInt(items[k].0).None?
    ensures Credit(t, items) == Credited(Credit(t, items[..k]).traffic, true)
  {
    CreditCrashes(t, items[..k]);
    assert items[..k + 1][..k] == items[..k];
    CreditStopsAtCrash(t, items, k + 1);
  }

  /** Deltas that all name unknown ports leave the counters exactly as they were. */
  lemma {:induction false} CreditUnknownPorts(t: map<int, int>, items: StatItems)
    requires forall i :: 0 <= i < |items| ==> ParseInt(items[i].0).Some? && ParseInt(items[i].0).value !in t
    ensures Credit(t, items) == Credited(t, false)
  {
    if items != [] {
      var init := items[..|items| - 1];
      forall i | 0 <= i < |init| ensures ParseInt(init[i].0).Some? && ParseInt(init[i].0).value !in t {
        assert init[i] == items[i];
      }
      CreditUnknownPorts(t, init);
    }
  }

  // ---------------------------------------------------------------------
  // One datagram, and a run of datagrams
  // ---------------------------------------------------------------------

  /** The state the receiver touches: the acknowledgment latch and the traffic counters. */
  datatype View = View(ok: bool, traffic: map<int, int>)

  /** The view after one datagram, and whether the receiver thread died on it. */
  datatype Step = Step(view: View, crashed: bool)

  function Dispatch(v: View, data: string, loads: Loads): (r: Step)
    ensures r.view.traffic.Keys == v.traffic.Keys
    ensures r.view.ok <==> v.ok || data == "ok"
    ensures data == "ok" ==> r == Step(v.(ok := true), false)
    ensures Classify(data).UnknownVerb? ==> r == Step(v, false)
    ensures Classify(data).Unsplittable? ==> r == Step(v, true)
  {
    match Classify(data)
    case Ack => Step(v.(ok := true), false)
    case Unsplittable => Step(v, true)
    case UnknownVerb(_) => Step(v, false)
    case Stat(body) =>
      match loads(body)
      case None => Step(v, true)
      case Some(items) =>
        CreditKeys(v.traffic, items);
        var c := Credit(v.traffic, items);
        Step(v.(traffic := c.traffic), c.crashed)
  }

  /** The deltas one datagram carries for `port` (zero unless it is a stat frame). */
  function FrameDelta(data: string, loads: Loads, port: int): int
  {
    match Classify(data)
    case Stat(body) => (match loads(body) case Some(items) => DeltaFor(items, port) case None => 0)
    case _ => 0
  }

  /** A datagram the receiver survives. */
  predicate Survives(data: string, loads: Loads)
  {
    match Classify(data)
    case Unsplittable => false
    case Stat(body) => loads(body).Some? && AllKeysParse(loads(body).value)
    case _ => true
  }

  /** The view after a run of datagrams, how many were taken off the channel, and whether the thread died. */
  datatype Drained = Drained(view: View, handled: nat, crashed: bool)

  function Drain(v: View, frames: seq<string>, loads: Loads): Drained
  {
    if frames == [] then Drained(v, 0, false)
    else
      var before := Drain(v, frames[..|frames| - 1], loads);
      if before.crashed then before
      else
        var s := Dispatch(before.view, frames[|frames| - 1], loads);
        Drained(s.view, |frames|, s.crashed)
  }

  /** Once the receiver thread has died, later datagrams are never taken off the channel. */
  lemma {:induction false} DrainStopsAtCrash(v: View, frames: seq<string>, loads: Loads, k: nat)
    requires k <= |frames| && Drain(v, frames[..k], loads).crashed
    ensures Drain(v, frames, loads) == Drain(v, frames[..k], loads)
    decreases |frames| - k
  {
    if k < |frames| {
      var init := frames[..|frames| - 1];
      assert init[..k] == frames[..k];
      DrainStopsAtCrash(v, init, loads, k);
    } else {
      assert frames[..k] == frames;
    }
  }

  /** The sum over a run of datagrams of the deltas for `port`. */
  function TotalDelta(frames: seq<string>, loads: Loads, port: int): int
  {
    if frames == [] then 0
    else TotalDelta(frames[..|frames| - 1], loads, port) + FrameDelta(frames[|frames| - 1], loads, port)
  }

  lemma {:induction false} DispatchSurvives(v: View, data: string, loads: Loads)
    ensures !Dispatch(v, data, loads).crashed <==> Survives(data, loads)
  {
    match Classify(data)
    case Stat(body) =>
      if loads(body).Some? { CreditCrashes(v.traffic, loads(body).value); }
    case _ =>
  }

  /** On a datagram it survives, every known port gains exactly that datagram's delta. */
  lemma DispatchTotals(v: View, data: string, loads: Loads)
    requires Survives(data, loads)
    ensures forall p :: p in v.traffic ==> Dispatch(v, data, loads).view.traffic[p] == v.traffic[p] + FrameDelta(data, loads, p)
  {
    match Classify(data)
    case Stat(body) => CreditTotals(v.traffic, loads(body).value);
    case _ =>
  }

  /** A run of datagrams never adds or removes a registry key. */
  lemma {:induction false} DrainKeys(v: View, frames: seq<string>, loads: Loads)
    ensures Drain(v, frames, loads).view.traffic.Keys == v.traffic.Keys
    ensures Drain(v, frames, loads).handled <= |frames|
  {
    if frames != [] { DrainKeys(v, frames[..|frames| - 1], loads); }
  }

  /** The latch is set after a run exactly when it was set before or an `ok` was taken off the channel. */
  lemma {:induction false} DrainLatch(v: View, frames: seq<string>, loads: Loads)
    ensures Drain(v, frames, loads).handled <= |frames|
    ensures Drain(v, frames, loads).view.ok <==>
      v.ok || exists i :: 0 <= i < Drain(v, frames, loads).handled && frames[i] == "ok"
  {
    if frames != [] {
      var init := frames[..|frames| - 1];
      DrainLatch(v, init, loads);
      var before := Drain(v, init, loads);
      if !before.crashed {
        var d := Drain(v, frames, loads);
        assert d.handled == |frames|;
        if d.view.ok && !v.ok && frames[|frames| - 1] != "ok" {
          var i :| 0 <= i < before.handled && init[i] == "ok";
          assert frames[i] == "ok";
        }
        if exists i :: 0 <= i < d.handled && frames[i] == "ok" {
          var i :| 0 <= i < d.handled && frames[i] == "ok";
          if i < |init| { assert init[i] == "ok"; }
        }
      } else {
        forall i | 0 <= i < before.handled ensures frames[i] == init[i] { }
      }
    }
  }

  /**
   * Repeated stat frames accumulate: when the receiver survives the whole run,
   * each known port ends at its old traffic plus the sum of every delta for it.
   */
  lemma {:induction false} DrainTotals(v: View, frames: seq<string>, loads: Loads)
    requires forall i :: 0 <= i < |frames| ==> Survives(frames[i], loads)
    ensures !Drain(v, frames, loads).crashed && Drain(v, frames, loads).handled == |frames|
    ensures forall p :: p in v.traffic ==>
      p in Drain(v, frames, loads).view.traffic &&
      Drain(v, frames, loads).view.traffic[p] == v.traffic[p] + TotalDelta(frames, loads, p)
  {
    if frames != [] {
      var init := frames[..|frames| - 1];
      DrainTotals(v, init, loads);
      DrainKeys(v, init, loads);
      var before := Drain(v, init, loads);
      var last := frames[|frames| - 1];
      DispatchSurvives(before.view, last, loads);
      DispatchTotals(before.view, last, loads);
    }
  }

  /** A frame of one item is credited by that item alone. */
  lemma CreditSingle(t: map<int, int>, item: (string, int))
    ensures Credit(t, [item]) == CreditOne(t, item)
  {
  }

  lemma ParsePortLiterals()
    ensures ParseInt("8388") == Some(8388) && ParseInt("9999") == Some(9999)
  {
    assert "8388"[..3] == "838" && "838"[..2] == "83" && "83"[..1] == "8" && "8"[..0] == "";
    assert DigitsValue("838") == 838;
    assert "9999"[..3] == "999" && "999"[..2] == "99" && "99"[..1] == "9" && "9"[..0] == "";
    assert DigitsValue("999") == 999;
  }

  /** A stat frame naming one port: its delta is credited when the port is known and dropped otherwise. */
  lemma OnePortReport(t: map<int, int>, loads: Loads, body: string, key: string, port: int, delta: int)
    requires ParseInt(key) == Some(port)
    requires loads(body) == Some([(key, delta)])
    ensures Dispatch(View(false, t), "stat" + [':'] + body, loads)
      == Step(View(false, if port in t then t[port := t[port] + delta] else t), false)
  {
    ClassifyStat(body);
    CreditSingle(t, (key, delta));
  }

  /**
   * A stat frame for a registered port followed by one for an unknown port:
   * only the first changes anything, by exactly its delta.
   */
  lemma KnownThenUnknownPort(t: map<int, int>, loads: Loads, known: string, unknown: string,
                             body1: string, key1: string, port1: int, delta1: int,
                             body2: string, key2: string, port2: int, delta2: int)
    requires known == "stat" + [':'] + body1 && unknown == "stat" + [':'] + body2
    requires ParseInt(key1) == Some(port1) && port1 in t && loads(body1) == Some([(key1, delta1)])
    requires ParseInt(key2) == Some(port2) && port2 !in t && loads(body2) == Some([(key2, delta2)])
    ensures Drain(View(false, t), [known, unknown], loads) == Drained(View(false, t[port1 := t[port1] + delta1]), 2, false)
  {
    var v, v1 := View(false, t), View(false, t[port1 := t[port1] + delta1]);
    OnePortReport(t, loads, body1, key1, port1, delta1);
    OnePortReport(v1.traffic, loads, body2, key2, port2, delta2);
    assert Drain(v, [known], loads) == Drained(v1, 1, false) by {
      assert [known][..0] == [];
    }
    assert [known, unknown][..1] == [known];
  }
}
