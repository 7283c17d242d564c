/** Device discovery (`DiscoverDevice`): the bus is scanned until a device answers,
    while a four-phase spinner (`RotatingBar`) turns no faster than once per
    ROTATION_DLY milliseconds. */
module Discovery {
  import opened Common

  /** One pass of the polling loop: the address `ScanBus` returned (0 for none), the
      mode flag it left behind (true: user application) and the `millis()` reading
      taken after it. */
  datatype Scan = Scan(address: U8, appMode: bool, millis: U32)

  /** Some scan finds a device; the console waits for nothing less. */
  predicate DeviceAnswers(scans: seq<Scan>)
  {
    exists i :: 0 <= i < |scans| && scans[i].address != 0
  }

  /** The index of the first scan that finds a device. */
  function FirstAnswer(scans: seq<Scan>): (k: nat)
    requires DeviceAnswers(scans)
    ensures k < |scans| && scans[k].address != 0
    ensures forall j :: 0 <= j < k ==> scans[j].address == 0
  {
    if scans[0].address != 0 then 0
    else
      assert DeviceAnswers(scans[1..]) by {
        var i :| 0 <= i < |scans| && scans[i].address != 0;
        assert scans[1..][i - 1] == scans[i];
      }
      1 + FirstAnswer(scans[1..])
  }

  function AnsweringAddress(scans: seq<Scan>): U8
    requires DeviceAnswers(scans)
  {
    scans[FirstAnswer(scans)].address
  }

  function AnsweringMode(scans: seq<Scan>): bool
    requires DeviceAnswers(scans)
  {
    scans[FirstAnswer(scans)].appMode
  }

  /** The spinner phase that follows s: 1, 2, 3, 4 and back to 1; any other value stays. */
  function NextPhase(s: U8): (n: U8)
    ensures 1 <= s <= 4 ==> 1 <= n <= 4 && n != s
    ensures !(1 <= s <= 4) ==> n == s
  {
    match s
    case 1 => 2
    case 2 => 3
    case 3 => 4
    case 4 => 1
    case _ => s
  }

  /** s after n turns of the spinner. */
  function Rotate(s: U8, n: nat): U8
  {
    if n == 0 then s else NextPhase(Rotate(s, n - 1))
  }

  /** Four turns bring every phase back to where it was. */
  lemma FourTurnsReturn(s: U8)
    ensures Rotate(s, 4) == s
  {
    assert Rotate(s, 1) == NextPhase(s);
    assert Rotate(s, 2) == NextPhase(NextPhase(s));
    assert Rotate(s, 3) == NextPhase(NextPhase(NextPhase(s)));
  }

  /** From phase 1, the spinner shows phase 1 + n mod 4 after n turns. */
  lemma {:induction false} RotateFromOne(n: nat)
    ensures Rotate(1, n) == 1 + n % 4
  {
    if n > 0 {
      RotateFromOne(n - 1);
    }
  }

  /** The spinner of one discovery: `start_time` and `rotary_state`. */
  datatype Spinner = Spinner(startTime: U32, phase: U8)

  /** `now - start_time` on `unsigned long`, which wraps around at 2^32. */
  function Elapsed(startTime: U32, now: U32): U32
  {
    (now - startTime) % 0x1_0000_0000
  }

  /** The throttle after a scan: when ROTATION_DLY has elapsed the spinner turns
      and `start_time` becomes `now`. */
  function Tick(dly: U32, sp: Spinner, now: U32): Spinner
  {
    if Elapsed(sp.startTime, now) >= dly then Spinner(now, NextPhase(sp.phase)) else sp
  }

  /** The spinner after the ticks of the given scans, in order. */
  function SpinOver(dly: U32, sp: Spinner, scans: seq<Scan>): Spinner
    decreases |scans|
  {
    if |scans| == 0 then sp else SpinOver(dly, Tick(dly, sp, scans[0].millis), scans[1..])
  }

  /** How many of the given scans found ROTATION_DLY elapsed since the last turn. */
  function DueTicks(dly: U32, startTime: U32, scans: seq<Scan>): nat
    decreases |scans|
  {
    if |scans| == 0 then 0
    else if Elapsed(startTime, scans[0].millis) >= dly then 1 + DueTicks(dly, scans[0].millis, scans[1..])
    else DueTicks(dly, startTime, scans[1..])
  }

  lemma {:induction false} SpinOverSnoc(dly: U32, sp: Spinner, scans: seq<Scan>, x: Scan)
    ensures SpinOver(dly, sp, scans + [x]) == Tick(dly, SpinOver(dly, sp, scans), x.millis)
    decreases |scans|
  {
    if |scans| == 0 {
      assert SpinOver(dly, Tick(dly, sp, x.millis), []) == Tick(dly, sp, x.millis);
      assert ([] + [x])[1..] == [];
    } else {
      assert (scans + [x])[0] == scans[0];
      assert (scans + [x])[1..] == scans[1..] + [x];
      SpinOverSnoc(dly, Tick(dly, sp, scans[0].millis), scans[1..], x);
    }
  }

  /** The spinner turns once for each scan that is due and at no other time. */
  lemma {:induction false} SpinnerTurnsWhenDue(dly: U32, sp: Spinner, scans: seq<Scan>)
    ensures SpinOver(dly, sp, scans).phase == Rotate(sp.phase, DueTicks(dly, sp.startTime, scans))
    decreases |scans|
  {
    if |scans| > 0 {
      var now := scans[0].millis;
      var sp1 := Tick(dly, sp, now);
      SpinnerTurnsWhenDue(dly, sp1, scans[1..]);
      if Elapsed(sp.startTime, now) >= dly {
        RotateShift(sp.phase, DueTicks(dly, now, scans[1..]));
      }
    }
  }

  /** Turning once and then n times is turning n + 1 times. */
  lemma {:induction false} RotateShift(s: U8, n: nat)
    ensures Rotate(NextPhase(s), n) == Rotate(s, n + 1)
  {
    if n > 0 {
      RotateShift(s, n - 1);
    }
  }

  /** The spinner of a discovery, which starts at phase 1, shows phase 1 + (due ticks mod 4). */
  lemma DiscoverySpinnerPhase(dly: U32, scans: seq<Scan>)
    ensures SpinOver(dly, Spinner(0, 1), scans).phase == 1 + DueTicks(dly, 0, scans) % 4
  {
    SpinnerTurnsWhenDue(dly, Spinner(0, 1), scans);
    RotateFromOne(DueTicks(dly, 0, scans));
  }

  /** The `uint8_t` that `RotatingBar` updates through a pointer. */
  class Rotary {
    var state: U8

    constructor (s: U8)
      ensures state == s
    {
      state := s;
    }
  }

  /** `RotatingBar`: turns the spinner in place. */
  method RotatingBar(r: Rotary)
    modifies r
    ensures r.state == NextPhase(old(r.state))
  {
    match r.state
    case 1 => r.state := r.state + 1;
    case 2 => r.state := r.state + 1;
    case 3 => r.state := r.state + 1;
    case 4 => r.state := 1;
    case _ =>
  }

  /** `DiscoverDevice`: polls the scans in order until one finds a device. It returns
      that address and mode flag, how many scans it made, and the final spinner. */
  method DiscoverDevice(dly: U32, scans: seq<Scan>)
    returns (address: U8, appMode: bool, polled: nat, spinner: Spinner)
    requires DeviceAnswers(scans)
    ensures polled == FirstAnswer(scans) + 1
    ensures address == scans[polled - 1].address && address != 0
    ensures appMode == scans[polled - 1].appMode
    ensures forall j :: 0 <= j < polled - 1 ==> scans[j].address == 0
    ensures spinner == SpinOver(dly, Spinner(0, 1), scans[..polled])
  {
    address, appMode, polled := 0, false, 0;
    var startTime: U32 := 0;
    var rotary := new Rotary(1);
    while address == 0
      invariant polled <= FirstAnswer(scans) + 1
      invariant address == 0 ==> polled <= FirstAnswer(scans)
      invariant polled > 0 ==> address == scans[polled - 1].address && appMode == scans[polled - 1].appMode
      invariant polled == 0 ==> address == 0
      invariant Spinner(startTime, rotary.state) == SpinOver(dly, Spinner(0, 1), scans[..polled])
      decreases FirstAnswer(scans) + 1 - polled
    {
      var scan := scans[polled];
      address, appMode := scan.address, scan.appMode;
      var now := scan.millis;
      SpinOverSnoc(dly, Spinner(0, 1), scans[..polled], scan);
      assert scans[..polled + 1] == scans[..polled] + [scan];
      polled := polled + 1;
      if Elapsed(startTime, now) >= dly {
        RotatingBar(rotary);
        startTime := now;
      }
    }
    spinner := Spinner(startTime, rotary.state);
  }
}
