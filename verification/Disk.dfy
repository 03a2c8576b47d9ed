/**
 The simulated disk (sys161-1.14/bus/dev_disk.c): sector geometry, rotational delays in
 32-bit arithmetic, and the request state machine driven by timer events.
 */
module DiskGeometry {
  /** Sectors on all tracks. */
  function Sum(s: seq<nat>): nat {
    if s == [] then 0 else s[|s| - 1] + Sum(s[..|s| - 1])
  }

  /** Sectors on the tracks outside track tr; numbering starts at the outermost, last track. */
  function Outside(s: seq<nat>, tr: nat): nat
    requires tr < |s|
  {
    if tr == |s| - 1 then 0 else s[|s| - 1] + Outside(s[..|s| - 1], tr)
  }

  /** The number of the sector at rotational offset rot of track tr. */
  function SectorAt(s: seq<nat>, tr: nat, rot: nat): nat
    requires tr < |s|
  {
    Outside(s, tr) + rot
  }

  /** Track and offset of a sector, peeling tracks from the outside. */
  function Locate(s: seq<nat>, sector: nat): (p: (nat, nat))
    requires sector < Sum(s)
    ensures p.0 < |s| && p.1 < s[p.0]
  {
    var last := |s| - 1;
    if sector < s[last] then (last, sector) else Locate(s[..last], sector - s[last])
  }

  lemma {:induction false} LocateFindsSector(s: seq<nat>, sector: nat)
    requires sector < Sum(s)
    ensures SectorAt(s, Locate(s, sector).0, Locate(s, sector).1) == sector
  {
    var last := |s| - 1;
    if sector >= s[last] {
      LocateFindsSector(s[..last], sector - s[last]);
    }
  }

  lemma {:induction false} SectorLocated(s: seq<nat>, tr: nat, rot: nat)
    requires tr < |s| && rot < s[tr]
    ensures SectorAt(s, tr, rot) < Sum(s) && Locate(s, SectorAt(s, tr, rot)) == (tr, rot)
  {
    var last := |s| - 1;
    if tr < last {
      SectorLocated(s[..last], tr, rot);
    }
  }

  /** locate_sector; `smoke` is its own alarm, which a sector in bounds never sets off. */
  method LocateSector(s: seq<nat>, sector: nat) returns (track: nat, rot: nat, smoke: bool)
    requires Sum(s) < 0x1_0000_0000
    ensures smoke <==> sector >= Sum(s)
    ensures !smoke ==> (track, rot) == Locate(s, sector)
  {
    var i, start := |s|, 0;
    assert s[..i] == s;
    while i > 0
      invariant 0 <= i <= |s| && start <= sector && start + Sum(s[..i]) == Sum(s)
      invariant sector < Sum(s) ==> Locate(s, sector) == Locate(s[..i], sector - start)
    {
      var tr := i - 1;
      assert s[..i][..tr] == s[..tr];
      var end := start + s[tr];
      if start <= sector < end {
        return tr, sector - start, false;
      }
      start := end;
      i := tr;
    }
    return 0, 0, true;
  }
}

module DiskTiming {
  import opened Prelude

  const SECOND := 1_000_000_000

  /** disk_init's test of the rpm option; it gives up on any other. */
  predicate AcceptedRpm(rpm: nat) {
    rpm < WORD && rpm >= 60 && rpm % 60 == 0
  }

  function NsecsPerRev(rpm: nat): nat
    requires AcceptedRpm(rpm)
  {
    SECOND / (rpm / 60)
  }

  lemma RevBounds(rpm: nat)
    requires AcceptedRpm(rpm)
    ensures 0 < NsecsPerRev(rpm) <= SECOND
  {
    var revs := rpm / 60;
    assert 1 <= revs <= SECOND;
    DivBounds(SECOND, revs);
  }

  lemma DivBounds(a: nat, b: nat)
    requires 1 <= b <= a
    ensures 1 <= a / b <= a && a / b * b <= a
  {
    assert a == a / b * b + a % b;
    if a / b == 0 {
      assert false;
    }
    if a / b > a {
      MulGrows(a / b, b);
      assert false;
    }
  }

  lemma MulGrows(a: nat, b: nat)
    requires b >= 1
    ensures a * b >= a
  {
  }

  /** The start of the k-th sector comes within the revolution. */
  lemma SectorWithinRev(rev: nat, nsect: nat, k: nat)
    requires 0 < nsect && k < nsect
    ensures k * (rev / nsect) + rev / nsect <= rev
  {
    var nps := rev / nsect;
    assert rev == nps * nsect + rev % nsect;
    assert (k + 1) * nps <= nsect * nps by { MulOrder(k + 1, nsect, nps); }
  }

  lemma StartWithinRev(rev: nat, nsect: nat, k: nat)
    requires 0 < rev && k < nsect
    ensures 0 <= k * (rev / nsect) < rev && rev / nsect <= rev
  {
    SectorWithinRev(rev, nsect, k);
    if rev / nsect == 0 {
      assert k * 0 == 0;
    }
  }

  lemma MulOrder(a: nat, b: nat, c: nat)
    requires a <= b
    ensures a * c <= b * c
  {
    assert b * c == a * c + (b - a) * c;
  }

  /** The first of t, t + rev, t + 2 rev, ... that is not before `from`. */
  function Next(t: nat, from: nat, rev: nat): nat
    requires rev > 0
    decreases from - t
  {
    if t >= from then t else Next(t + rev, from, rev)
  }

  /** Next is the least such time, and at most a revolution away. */
  lemma {:induction false} NextIsLeast(t: nat, from: nat, rev: nat, turns: nat)
    requires rev > 0
    ensures Next(t, from, rev) >= from && Next(t, from, rev) >= t
    ensures t <= from + rev ==> Next(t, from, rev) <= from + rev
    ensures t < from + rev ==> Next(t, from, rev) < from + rev
    ensures exists k: nat :: Next(t, from, rev) == t + k * rev
    ensures t + turns * rev >= from ==> Next(t, from, rev) <= t + turns * rev
    decreases from - t
  {
    if t >= from {
      assert t == t + 0 * rev;
    } else if turns == 0 {
      NextIsLeast(t + rev, from, rev, 0);
      var k: nat :| Next(t + rev, from, rev) == t + rev + k * rev;
      assert t + rev + k * rev == t + (k + 1) * rev;
    } else {
      NextIsLeast(t + rev, from, rev, turns - 1);
      var k: nat :| Next(t + rev, from, rev) == t + rev + k * rev;
      assert t + rev + k * rev == t + (k + 1) * rev;
      assert t + rev + (turns - 1) * rev == t + turns * rev;
    }
  }

  /** How long until the sector has been written, from rotation alone. */
  function WriteDelay(rev: nat, nsect: nat, rot: nat, now: nat): int
    requires rev > 0 && nsect > 0
  {
    Next(rot * (rev / nsect), now, rev) + rev / nsect - now
  }

  /** A write never waits longer than a revolution plus the sector itself. */
  lemma WriteDelayBound(rev: nat, nsect: nat, rot: nat, now: nat)
    requires rev > 0 && rot < nsect
    ensures rev / nsect <= WriteDelay(rev, nsect, rot, now) < rev + rev / nsect
  {
    SectorWithinRev(rev, nsect, rot);
    if rev / nsect == 0 {
      assert rot * 0 == 0;
    }
    NextIsLeast(rot * (rev / nsect), now, rev, 0);
  }

  lemma WriteNotNegative(rev: nat, nsect: nat, rot: nat, now: nat)
    requires rev > 0 && rot < nsect
    ensures WriteDelay(rev, nsect, rot, now) >= 0
  {
    WriteDelayBound(rev, nsect, rot, now);
  }

  /** When, counted from the start of the second of arrival, the sector after rot comes by. */
  function ReadyAt(rev: nat, nsect: nat, rot: nat, arrival: nat): nat
    requires rev > 0 && nsect > 0
  {
    Next((rot + 1) % nsect * (rev / nsect), arrival, rev)
  }

  /** How long until the sector is in the track buffer; none if it has passed since arrival. */
  function ReadDelay(rev: nat, nsect: nat, rot: nat, arrSecs: nat, arrNsecs: nat, secs: nat, nsecs: nat): nat
    requires rev > 0 && nsect > 0
  {
    var wait := (arrSecs * SECOND + ReadyAt(rev, nsect, rot, arrNsecs)) - (secs * SECOND + nsecs);
    if wait <= 0 then 0 else wait
  }

  /** A read never waits longer than a revolution. */
  lemma ReadDelayBound(rev: nat, nsect: nat, rot: nat, arrSecs: nat, arrNsecs: nat, secs: nat, nsecs: nat)
    requires rev > 0 && rot < nsect
    requires arrSecs * SECOND + arrNsecs <= secs * SECOND + nsecs
    ensures ReadyAt(rev, nsect, rot, arrNsecs) <= arrNsecs + rev
    ensures ReadDelay(rev, nsect, rot, arrSecs, arrNsecs, secs, nsecs) <= rev
  {
    var target := (rot + 1) % nsect;
    SectorWithinRev(rev, nsect, target);
    NextIsLeast(target * (rev / nsect), arrNsecs, rev, 0);
  }

  /** Where on the track the head is at a time: the platter is at 0 when each second starts. */
  function Angle(x: int, rev: nat): nat
    requires rev > 0
  {
    x % rev
  }

  /** The end of sector rot; the last one counts as over when the platter is at 0 again. */
  function EndOf(rev: nat, nsect: nat, rot: nat): nat
    requires nsect > 0
  {
    if rot + 1 == nsect then 0 else rot * (rev / nsect) + rev / nsect
  }

  /** Next is the first time from then on at which the head is at t. */
  lemma NextPassage(t: nat, from: nat, rev: nat)
    requires t < rev
    ensures Next(t, from, rev) >= from && Angle(Next(t, from, rev), rev) == t
    ensures forall x :: from <= x < Next(t, from, rev) ==> Angle(x, rev) != t
  {
    NextIsLeast(t, from, rev, 0);
    var k: nat :| Next(t, from, rev) == t + k * rev;
    RemainderIs(t + k * rev, rev, k, t);
    forall x | from <= x < Next(t, from, rev)
      ensures Angle(x, rev) != t
    {
      NotSooner(t, from, rev, x);
    }
  }

  lemma NotSooner(t: nat, from: nat, rev: nat, x: nat)
    requires t < rev && from <= x
    ensures Angle(x, rev) == t ==> Next(t, from, rev) <= x
  {
    assert x == x / rev * rev + Angle(x, rev);
    NextIsLeast(t, from, rev, x / rev);
  }

  /** A write waits for the start of its sector, and then for the sector to pass. */
  lemma WriteWaitsForSector(rev: nat, nsect: nat, rot: nat, now: nat)
    requires rev > 0 && rot < nsect
    ensures var start := now + WriteDelay(rev, nsect, rot, now) - rev / nsect;
            && start >= now && Angle(start, rev) == rot * (rev / nsect)
            && forall x :: now <= x < start ==> Angle(x, rev) != rot * (rev / nsect)
  {
    StartWithinRev(rev, nsect, rot);
    NextPassage(rot * (rev / nsect), now, rev);
  }

  /**
   A read waits for the end of its sector: not at all exactly if that has passed under the head
   since it reached the track, else until the first time it does.
   */
  lemma ReadWaitsForEnd(rev: nat, nsect: nat, rot: nat, arrSecs: nat, arrNsecs: nat, secs: nat, nsecs: nat)
    requires rev > 0 && rot < nsect
    ensures var end, now := EndOf(rev, nsect, rot), (secs - arrSecs) * SECOND + nsecs;
            var delay := ReadDelay(rev, nsect, rot, arrSecs, arrNsecs, secs, nsecs);
            && (delay == 0 <==> exists x :: arrNsecs <= x <= now && Angle(x, rev) == end)
            && (delay > 0 ==> Angle(now + delay, rev) == end && forall x :: arrNsecs <= x < now + delay ==> Angle(x, rev) != end)
  {
    var end := EndOf(rev, nsect, rot);
    EndIsTarget(rev, nsect, rot);
    NextPassage(end, arrNsecs, rev);
    assert ReadyAt(rev, nsect, rot, arrNsecs) == Next(end, arrNsecs, rev);
  }

  lemma EndIsTarget(rev: nat, nsect: nat, rot: nat)
    requires rev > 0 && rot < nsect
    ensures (rot + 1) % nsect * (rev / nsect) == EndOf(rev, nsect, rot) < rev
  {
    var per := rev / nsect;
    if rot + 1 == nsect {
      RemainderIs(rot + 1, nsect, 1, 0);
      assert 0 * per == 0;
    } else {
      RemainderIs(rot + 1, nsect, 0, rot + 1);
      assert (rot + 1) * per == rot * per + per;
      StartWithinRev(rev, nsect, rot + 1);
    }
  }

  /** Unsigned 32-bit results. */
  function Wrap(x: int): (r: nat)
    ensures r < WORD && (0 <= x < WORD ==> r == x)
  {
    x % WORD
  }

  lemma WrapTwice(a: int, b: int)
    requires 0 <= a + b < WORD && 0 <= b
    ensures Wrap(Wrap(a) + b) == a + b
  {
    assert a == a / WORD * WORD + Wrap(a);
    assert Wrap(a) + b == (a + b) - a / WORD * WORD;
    RemainderIs(Wrap(a) + b, WORD, -(a / WORD), a + b);
  }

  /** The loop both delay functions share: turn the platter until t is no longer past. */
  method Turn(t: nat, from: nat, rev: nat) returns (r: nat)
    requires 0 < rev <= SECOND && t < rev && from < SECOND
    ensures r == Next(t, from, rev) && from <= r < 2 * SECOND
  {
    r := t;
    while r < from
      invariant r < from + rev && Next(r, from, rev) == Next(t, from, rev)
      decreases from - r
    {
      r := Wrap(r + rev);
    }
  }

  /** disk_writerotdelay */
  method WriteRotDelay(rev: nat, nsect: nat, rot: nat, nownsecs: nat) returns (delay: nat)
    requires 0 < rev <= SECOND && rot < nsect && nownsecs < SECOND
    ensures delay == WriteDelay(rev, nsect, rot, nownsecs)
  {
    var perSector := rev / nsect;
    StartWithinRev(rev, nsect, rot);
    delay := WriteWait(Wrap(rot * perSector), perSector, nownsecs, rev);
  }

  /** The rest of disk_writerotdelay: turn to the sector's start, then over the sector. */
  method WriteWait(start: nat, perSector: nat, nownsecs: nat, rev: nat) returns (delay: nat)
    requires 0 < rev <= SECOND && start < rev && perSector <= rev && nownsecs < SECOND
    ensures delay == Next(start, nownsecs, rev) + perSector - nownsecs
  {
    var targ := Turn(start, nownsecs, rev);
    targ := Wrap(targ + perSector);
    delay := Wrap(targ - nownsecs);
  }

  /** disk_readrotdelay */
  method ReadRotDelay(rev: nat, nsect: nat, rot: nat, arrSecs: nat, arrNsecs: nat, nowsecs: nat, nownsecs: nat) returns (delay: nat)
    requires 0 < rev <= SECOND && rot < nsect && arrNsecs < SECOND && nownsecs < SECOND
    requires arrSecs * SECOND + arrNsecs <= nowsecs * SECOND + nownsecs
    ensures delay == ReadDelay(rev, nsect, rot, arrSecs, arrNsecs, nowsecs, nownsecs)
  {
    var perSector := rev / nsect;
    var target := (rot + 1) % nsect;
    StartWithinRev(rev, nsect, target);
    ReadDelayBound(rev, nsect, rot, arrSecs, arrNsecs, nowsecs, nownsecs);
    var ready := Turn(Wrap(target * perSector), arrNsecs, rev);
    delay := Remaining(arrSecs, ready, nowsecs, nownsecs);
  }

  /** The rest of disk_readrotdelay: carry into seconds, then compare and subtract. */
  method Remaining(secs: nat, ready: nat, nowsecs: nat, nownsecs: nat) returns (delay: nat)
    requires ready < 2 * SECOND && nownsecs < SECOND
    requires secs * SECOND + ready <= nowsecs * SECOND + nownsecs + SECOND
    ensures var wait := (secs * SECOND + ready) - (nowsecs * SECOND + nownsecs);
            delay == if wait <= 0 then 0 else wait
  {
    var targsecs, targnsecs := secs, ready;
    while targnsecs >= SECOND
      invariant 0 <= targnsecs && targsecs * SECOND + targnsecs == secs * SECOND + ready
      decreases targnsecs
    {
      targnsecs := targnsecs - SECOND;
      targsecs := targsecs + 1;
    }
    if targsecs < nowsecs || (targsecs == nowsecs && targnsecs <= nownsecs) {
      return 0;
    }
    targsecs := targsecs - nowsecs;
    WrapTwice(targnsecs - nownsecs, SECOND * targsecs);
    targnsecs := Wrap(targnsecs - nownsecs);
    delay := Wrap(targnsecs + SECOND * targsecs);
  }
}

module DiskMachine {
  import opened Prelude
  import opened DiskGeometry
  import opened DiskTiming

  const MAX_WORKTRIES := 10
  const CACHE_TIME := 500

  const INPROGRESS: bv32 := 1
  const ISWRITE: bv32 := 2
  const COMPLETE: bv32 := 4
  const INVSECT: bv32 := 8
  const MEDIAERR: bv32 := 16

  const IDLE: bv32 := 0
  const READING: bv32 := 1
  const WRITING: bv32 := 3

  /** Sectors per track, sectors offered, nanoseconds per revolution, seek time by distance. */
  datatype Geometry = Geometry(sectors: seq<nat>, total: nat, rev: nat, seek: nat -> nat)

  ghost predicate GeometryOk(g: Geometry) {
    g.total <= Sum(g.sectors) < WORD && 0 < g.rev <= SECOND
  }

  /** A timer: a seek that ends on track `code`, or a wait that ends in io status `code`. */
  datatype Timer = Timer(nsecs: nat, code: nat, seek: bool)

  datatype Transfer = Transfer(sector: nat, write: bool)

  /** The time of a call, and whether the host's file would fail it. */
  datatype Moment = Moment(secs: nat, nsecs: nat, err: bool)

  /**
   The device: position and time of arrival on the track, io status, timer flag, number of
   attempts, registers, interrupt line; then its timers, the transfers made, and how often
   the "geometry modeling fault" fallback was taken.
   */
  datatype Device = Device(track: nat, arrSecs: nat, arrNsecs: nat, iostatus: int, timedop: bool, worktries: nat,
                           stat: bv32, sect: nat, irq: bool, timers: seq<Timer>, log: seq<Transfer>, faults: nat)

  predicate InProgress(stat: bv32) { stat & INPROGRESS != 0 }
  predicate IsWrite(stat: bv32) { stat & ISWRITE != 0 }

  function Finish(stat: bv32, bits: bv32): bv32 {
    (stat & 0xFFFF_FFFE) | bits
  }

  function Waiting(d: Device, t: Timer): Device {
    d.(timedop := true, timers := d.timers + [t])
  }

  function Transferred(d: Device, err: bool): Device {
    d.(log := d.log + [Transfer(d.sect, IsWrite(d.stat))], worktries := 0,
       stat := Finish(d.stat, if err then COMPLETE | MEDIAERR else COMPLETE))
  }

  function Distance(a: nat, b: nat): nat {
    if a < b then b - a else a - b
  }

  function RotDelay(g: Geometry, d: Device, m: Moment): int
    requires GeometryOk(g) && d.sect < g.total
  {
    var p := Locate(g.sectors, d.sect);
    if IsWrite(d.stat) then WriteDelay(g.rev, g.sectors[p.0], p.1, m.nsecs)
    else ReadDelay(g.rev, g.sectors[p.0], p.1, d.arrSecs, d.arrNsecs, m.secs, m.nsecs)
  }

  function CopyOut(d: Device, m: Moment): Device {
    if !IsWrite(d.stat) && d.iostatus < 3 then Waiting(d, Timer(CACHE_TIME, 3, false)) else Transferred(d, m.err)
  }

  function Rotate(g: Geometry, d: Device, m: Moment): Device
    requires GeometryOk(g) && d.sect < g.total
  {
    if d.iostatus >= 2 then CopyOut(d, m)
    else if RotDelay(g, d, m) > 0 then Waiting(d, Timer(RotDelay(g, d, m), 2, false))
    else CopyOut(d.(iostatus := 2), m)
  }

  function Attempt(g: Geometry, d: Device, m: Moment): Device
    requires GeometryOk(g) && d.sect < g.total
  {
    var cyl := Locate(g.sectors, d.sect).0;
    if d.track != cyl then Waiting(d, Timer(g.seek(Distance(cyl, d.track)), cyl, true))
    else if IsWrite(d.stat) && d.iostatus < 1 then Waiting(d, Timer(CACHE_TIME, 1, false))
    else Rotate(g, d, m)
  }

  function Forced(d: Device, m: Moment): Device {
    Transferred(d.(track := 0, arrSecs := m.secs, arrNsecs := m.nsecs, iostatus := -1, timedop := false,
                   worktries := d.worktries + 1, faults := d.faults + 1), m.err)
  }

  /** disk_work */
  function Work(g: Geometry, d: Device, m: Moment): Device
    requires GeometryOk(g)
  {
    if d.timedop || !InProgress(d.stat) then d
    else if d.sect >= g.total then d.(stat := Finish(d.stat, COMPLETE | INVSECT), worktries := 0)
    else if d.worktries + 1 > MAX_WORKTRIES then Forced(d, m)
    else Attempt(g, d.(worktries := d.worktries + 1), m)
  }

  /** disk_update */
  function Update(g: Geometry, d: Device, m: Moment): Device
    requires GeometryOk(g)
  {
    var w := Work(g, d, m);
    w.(irq := w.stat & COMPLETE != 0)
  }

  predicate LegalStatus(val: bv32) { val == IDLE || val == READING || val == WRITING }

  /** disk_setstatus for a legal value; any other hangs the device without effect. */
  function SetStatus(g: Geometry, d: Device, val: bv32, m: Moment): Device
    requires GeometryOk(g)
  {
    if !LegalStatus(val) then d
    else Update(g, d.(stat := val, iostatus := if val == IDLE then -1 else 0), m)
  }

  /** disk_seekdone and disk_waitdone, for the first timer. */
  function Fire(g: Geometry, d: Device, m: Moment): Device
    requires GeometryOk(g) && d.timers != []
  {
    Update(g, Expired(d, m), m)
  }

  function Expired(d: Device, m: Moment): Device
    requires d.timers != []
  {
    var t := d.timers[0];
    var d' := d.(timedop := false, timers := d.timers[1..]);
    if t.seek then d'.(track := t.code, arrSecs := m.secs, arrNsecs := m.nsecs) else d'.(iostatus := t.code)
  }

  /** Let timers expire at the given moments, as long as there are any. */
  function Drive(g: Geometry, d: Device, ms: seq<Moment>): Device
    requires GeometryOk(g)
    decreases |ms|
  {
    if ms == [] || d.timers == [] then d else Drive(g, Fire(g, d, ms[0]), ms[1..])
  }

  // ---- what every run keeps --------------------------------------------------------------

  /** At most one timer, exactly while timedop is set; only sectors on the disk are transferred. */
  ghost predicate Tidy(g: Geometry, d: Device) {
    && |d.timers| == (if d.timedop then 1 else 0)
    && (forall k :: 0 <= k < |d.log| ==> d.log[k].sector < g.total)
  }

  /** ... and the interrupt line follows the completion bit. */
  ghost predicate Inv(g: Geometry, d: Device) {
    Tidy(g, d) && (d.irq <==> d.stat & COMPLETE != 0)
  }

  datatype Step = WriteStatus(val: bv32) | WriteSector(sect: nat) | Expire

  function Apply(g: Geometry, d: Device, s: Step, m: Moment): Device
    requires GeometryOk(g)
  {
    match s
    case WriteStatus(val) => SetStatus(g, d, val, m)
    case WriteSector(sect) => d.(sect := sect)
    case Expire => if d.timers == [] then d else Fire(g, d, m)
  }

  function Run(g: Geometry, d: Device, steps: seq<(Step, Moment)>): Device
    requires GeometryOk(g)
    decreases |steps|
  {
    if steps == [] then d else Run(g, Apply(g, d, steps[0].0, steps[0].1), steps[1..])
  }

  /** Whatever the guest writes and whenever, one timer at most is ever pending. */
  lemma {:induction false} EveryRun(g: Geometry, d: Device, steps: seq<(Step, Moment)>)
    requires GeometryOk(g) && Inv(g, d)
    ensures Inv(g, Run(g, d, steps))
    decreases |steps|
  {
    if steps != [] {
      StepKeepsInv(g, d, steps[0].0, steps[0].1);
      EveryRun(g, Apply(g, d, steps[0].0, steps[0].1), steps[1..]);
    }
  }

  lemma StepKeepsInv(g: Geometry, d: Device, s: Step, m: Moment)
    requires GeometryOk(g) && Inv(g, d)
    ensures Inv(g, Apply(g, d, s, m))
  {
    match s
    case WriteStatus(val) =>
      UpdateKeepsInv(g, d.(stat := val, iostatus := if val == IDLE then -1 else 0), m);
    case WriteSector(_) =>
    case Expire =>
      if d.timers != [] {
        UpdateKeepsInv(g, Expired(d, m), m);
      }
  }

  lemma UpdateKeepsInv(g: Geometry, d: Device, m: Moment)
    requires GeometryOk(g) && Tidy(g, d)
    ensures Inv(g, Update(g, d, m))
  {
    WorkTidy(g, d, m);
    assert Tidy(g, Update(g, d, m));
  }

  lemma WorkTidy(g: Geometry, d: Device, m: Moment)
    requires GeometryOk(g) && Tidy(g, d)
    ensures Tidy(g, Work(g, d, m))
  {
    if !d.timedop && InProgress(d.stat) && d.sect < g.total {
      if d.worktries + 1 > MAX_WORKTRIES {
        TransferTidy(g, d.(track := 0, arrSecs := m.secs, arrNsecs := m.nsecs, iostatus := -1, timedop := false,
                           worktries := d.worktries + 1, faults := d.faults + 1), m.err);
      } else {
        AttemptTidy(g, d.(worktries := d.worktries + 1), m);
      }
    }
  }

  lemma TransferTidy(g: Geometry, d: Device, err: bool)
    requires Tidy(g, d) && d.sect < g.total
    ensures Tidy(g, Transferred(d, err))
  {
  }

  lemma AttemptTidy(g: Geometry, d: Device, m: Moment)
    requires GeometryOk(g) && Tidy(g, d) && !d.timedop && d.sect < g.total
    ensures Tidy(g, Attempt(g, d, m))
  {
    TransferTidy(g, d, m.err);
    TransferTidy(g, d.(iostatus := 2), m.err);
  }

  // ---- an undisturbed operation ----------------------------------------------------------

  /** disk_work is about to look at request `val` for a valid sector. */
  ghost predicate Asked(g: Geometry, d: Device, val: bv32) {
    && GeometryOk(g) && d.sect < g.total && (val == READING || val == WRITING)
    && d.stat == val && !d.timedop && d.timers == []
  }

  /** What the status register says of a request that has ended: complete, its direction, and whether the host failed it. */
  function Reported(write: bool, err: bool): bv32 {
    (if write then ISWRITE else 0) | COMPLETE | (if err then MEDIAERR else 0)
  }

  /** Timers before the transfer of an operation that needs so many: fewer if it runs out of tries. */
  function TimersTaken(worktries: nat, needs: nat): nat {
    if worktries + 1 + needs <= MAX_WORKTRIES then needs else if worktries < MAX_WORKTRIES then MAX_WORKTRIES - worktries else 0
  }

  /** Whether the host fails the transfer, when the request is made at m and its timers expire at ms. */
  function Fails(d: Device, needs: nat, m: Moment, ms: seq<Moment>): bool
    requires needs <= |ms|
  {
    var k := TimersTaken(d.worktries, needs);
    if k == 0 then m.err else ms[k - 1].err
  }

  /** The request of d has ended in r, with one transfer and a fault just if it took too many tries. */
  ghost predicate Served(d: Device, r: Device, needs: nat, m: Moment, ms: seq<Moment>)
    requires needs <= |ms|
  {
    && !r.timedop && r.timers == [] && !InProgress(r.stat) && r.irq && r.worktries == 0 && r.sect == d.sect
    && r.stat == Reported(IsWrite(d.stat), Fails(d, needs, m, ms))
    && r.log == d.log + [Transfer(d.sect, IsWrite(d.stat))]
    && r.faults == d.faults + (if d.worktries + 1 + needs > MAX_WORKTRIES then 1 else 0)
  }

  lemma FinishBits(val: bv32)
    requires val == READING || val == WRITING
    ensures InProgress(val)
    ensures !InProgress(Finish(val, COMPLETE)) && Finish(val, COMPLETE) & COMPLETE != 0
    ensures !InProgress(Finish(val, COMPLETE | MEDIAERR)) && Finish(val, COMPLETE | MEDIAERR) & COMPLETE != 0
    ensures Finish(val, COMPLETE) == Reported(IsWrite(val), false) && Finish(val, COMPLETE | MEDIAERR) == Reported(IsWrite(val), true)
    ensures IsWrite(val) <==> val == WRITING
  {
  }

  lemma Overtried(g: Geometry, d: Device, val: bv32, m: Moment, ms: seq<Moment>, needs: nat)
    requires Asked(g, d, val) && d.worktries + 1 > MAX_WORKTRIES && needs <= |ms|
    ensures Served(d, Drive(g, Update(g, d, m), ms), needs, m, ms)
  {
    FinishBits(val);
  }

  /** On the track, everything waited for: the transfer. */
  lemma Last(g: Geometry, d: Device, val: bv32, m: Moment, ms: seq<Moment>)
    requires Asked(g, d, val) && d.track == Locate(g.sectors, d.sect).0
    requires d.iostatus >= (if IsWrite(val) then 2 else 3)
    ensures Served(d, Drive(g, Update(g, d, m), ms), 0, m, ms)
  {
    FinishBits(val);
  }

  /** A read that has waited for the platter still copies out of the track buffer. */
  lemma Copy(g: Geometry, d: Device, m: Moment, ms: seq<Moment>)
    requires Asked(g, d, READING) && d.track == Locate(g.sectors, d.sect).0 && d.iostatus == 2 && |ms| >= 1
    ensures Served(d, Drive(g, Update(g, d, m), ms), 1, m, ms)
  {
    FinishBits(READING);
    if d.worktries + 1 > MAX_WORKTRIES {
      Overtried(g, d, READING, m, ms, 1);
    } else {
      var w := Update(g, d, m);
      Last(g, Expired(w, ms[0]), READING, ms[0], ms[1..]);
    }
  }

  /** Timers still to come once the rotation is looked at. */
  function AfterRotation(g: Geometry, d: Device, m: Moment): nat
    requires GeometryOk(g) && d.sect < g.total
  {
    (if RotDelay(g, d, m) > 0 then 1 else 0) + (if IsWrite(d.stat) then 0 else 1)
  }

  lemma Platter(g: Geometry, d: Device, val: bv32, m: Moment, ms: seq<Moment>)
    requires Asked(g, d, val) && d.track == Locate(g.sectors, d.sect).0
    requires !IsWrite(val) && d.iostatus == 0 && |ms| >= 2
    ensures Served(d, Drive(g, Update(g, d, m), ms), AfterRotation(g, d, m), m, ms)
  {
    FinishBits(val);
    if d.worktries + 1 > MAX_WORKTRIES {
      Overtried(g, d, val, m, ms, AfterRotation(g, d, m));
    } else {
      PlatterTurns(g, d, val, m, ms);
    }
  }

  lemma PlatterTurns(g: Geometry, d: Device, val: bv32, m: Moment, ms: seq<Moment>)
    requires Asked(g, d, val) && d.track == Locate(g.sectors, d.sect).0 && d.worktries < MAX_WORKTRIES
    requires !IsWrite(val) && d.iostatus == 0 && |ms| >= 2
    ensures Served(d, Drive(g, Update(g, d, m), ms), AfterRotation(g, d, m), m, ms)
  {
    FinishBits(val);
    var d1 := Expired(Update(g, d, m), ms[0]);
    if RotDelay(g, d, m) > 0 {
      Copy(g, d1, ms[0], ms[1..]);
    } else {
      Last(g, d1, val, ms[0], ms[1..]);
    }
    Onward(d, d1, Drive(g, Update(g, d1, ms[0]), ms[1..]), m, ms, AfterRotation(g, d, m));
  }

  /** One timer on, the rest of the operation serves the request. */
  lemma Onward(d: Device, d1: Device, r: Device, m: Moment, ms: seq<Moment>, needs: nat)
    requires d.worktries < MAX_WORKTRIES && 1 <= needs <= |ms| && Served(d1, r, needs - 1, ms[0], ms[1..])
    requires d1.worktries == d.worktries + 1 && d1.log == d.log && d1.faults == d.faults && d1.sect == d.sect && d1.stat == d.stat
    ensures Served(d, r, needs, m, ms)
  {
  }

  /** The device as it will be looked at when its head is on the right track. */
  function OnTrack(g: Geometry, d: Device, m: Moment): Device
    requires GeometryOk(g) && d.sect < g.total
  {
    var cyl := Locate(g.sectors, d.sect).0;
    if d.track == cyl then d else d.(track := cyl, arrSecs := m.secs, arrNsecs := m.nsecs)
  }

  /** A write first fills the cache. */
  lemma Cache(g: Geometry, d: Device, m: Moment, ms: seq<Moment>)
    requires Asked(g, d, WRITING) && d.track == Locate(g.sectors, d.sect).0 && d.iostatus == 0 && |ms| >= 2
    ensures Served(d, Drive(g, Update(g, d, m), ms), 1 + AfterRotation(g, d, ms[0]), m, ms)
  {
    FinishBits(WRITING);
    if d.worktries + 1 > MAX_WORKTRIES {
      Overtried(g, d, WRITING, m, ms, 1 + AfterRotation(g, d, ms[0]));
    } else {
      var w := Update(g, d, m);
      CachedPlatter(g, Expired(w, ms[0]), ms[0], ms[1..]);
    }
  }

  lemma CachedPlatter(g: Geometry, d: Device, m: Moment, ms: seq<Moment>)
    requires Asked(g, d, WRITING) && d.track == Locate(g.sectors, d.sect).0 && d.iostatus == 1 && |ms| >= 1
    ensures Served(d, Drive(g, Update(g, d, m), ms), AfterRotation(g, d, m), m, ms)
  {
    FinishBits(WRITING);
    if d.worktries + 1 > MAX_WORKTRIES {
      Overtried(g, d, WRITING, m, ms, AfterRotation(g, d, m));
    } else if RotDelay(g, d, m) > 0 {
      var w := Update(g, d, m);
      Last(g, Expired(w, ms[0]), WRITING, ms[0], ms[1..]);
    }
  }

  /** Timers an operation needs once on the track: the cache, and the platter if it must be waited for. */
  function NeedsOnTrack(g: Geometry, d: Device, m: Moment, ms: seq<Moment>): (n: nat)
    requires GeometryOk(g) && d.sect < g.total && |ms| >= 2
    ensures n <= 2
  {
    if IsWrite(d.stat) then 1 + AfterRotation(g, d, ms[0]) else AfterRotation(g, d, m)
  }

  lemma ServedOnTrack(g: Geometry, d: Device, val: bv32, m: Moment, ms: seq<Moment>)
    requires Asked(g, d, val) && d.track == Locate(g.sectors, d.sect).0 && d.iostatus == 0 && |ms| >= 2
    ensures Served(d, Drive(g, Update(g, d, m), ms), NeedsOnTrack(g, d, m, ms), m, ms)
  {
    if val == WRITING {
      Cache(g, d, m, ms);
    } else {
      Platter(g, d, val, m, ms);
    }
  }

  /** Timers an operation started at m needs, if they expire at ms. */
  function Needs(g: Geometry, d: Device, m: Moment, ms: seq<Moment>): (n: nat)
    requires GeometryOk(g) && d.sect < g.total && |ms| >= 3
    ensures n <= 3
  {
    var there := OnTrack(g, d, ms[0]);
    if d.track == there.track then NeedsOnTrack(g, d, m, ms) else 1 + NeedsOnTrack(g, there, ms[0], ms[1..])
  }

  lemma ServedFromStart(g: Geometry, d: Device, val: bv32, m: Moment, ms: seq<Moment>)
    requires Asked(g, d, val) && d.iostatus == 0 && |ms| >= 3
    ensures Served(d, Drive(g, Update(g, d, m), ms), Needs(g, d, m, ms), m, ms)
  {
    if d.track == Locate(g.sectors, d.sect).0 {
      ServedOnTrack(g, d, val, m, ms);
    } else if d.worktries + 1 > MAX_WORKTRIES {
      Overtried(g, d, val, m, ms, Needs(g, d, m, ms));
    } else {
      FinishBits(val);
      var w := Update(g, d, m);
      ServedOnTrack(g, Expired(w, ms[0]), val, ms[0], ms[1..]);
    }
  }

  ghost predicate Quiet(d: Device) {
    !d.timedop && d.timers == [] && !InProgress(d.stat)
  }

  /**
   An undisturbed operation. On a quiet disk, a read or write of a valid sector ends after at
   most three timers, with exactly one transfer, of that sector in that direction, the
   completion bit set and the interrupt raised. It takes the fallback exactly when the tries
   left over from abandoned operations and those it needs itself exceed the limit.
   */
  lemma Undisturbed(g: Geometry, d: Device, val: bv32, m: Moment, ms: seq<Moment>)
    requires GeometryOk(g) && Quiet(d) && d.sect < g.total && (val == READING || val == WRITING) && |ms| >= 3
    ensures var asked := d.(stat := val, iostatus := 0);
            var r := Drive(g, SetStatus(g, d, val, m), ms);
            && Quiet(r) && r.irq && r.worktries == 0 && r.stat == Reported(val == WRITING, Fails(asked, Needs(g, asked, m, ms), m, ms))
            && r.log == d.log + [Transfer(d.sect, val == WRITING)]
            && (r.faults == d.faults <==> d.worktries + 1 + Needs(g, asked, m, ms) <= MAX_WORKTRIES)
  {
    var asked := d.(stat := val, iostatus := 0);
    ServedFromStart(g, asked, val, m, ms);
    FinishBits(val);
  }

  /** The moment x nanoseconds after time began. */
  function At(x: nat, err: bool): Moment { Moment(x / SECOND, x % SECOND, err) }

  /** Each timer expires when it says, the first n of them: the device then, and the time. */
  function Punctual(g: Geometry, d: Device, x: nat, err: bool, n: nat): (Device, nat)
    requires GeometryOk(g)
    decreases n
  {
    if n == 0 || d.timers == [] then (d, x)
    else
      var x' := x + d.timers[0].nsecs;
      Punctual(g, Fire(g, d, At(x', err)), x', err, n - 1)
  }

  /** When a write on its track at x is done: filled into the cache, then turned to and over its sector. */
  function WriteEnd(g: Geometry, sect: nat, x: nat): int
    requires GeometryOk(g) && sect < g.total
  {
    var p := Locate(g.sectors, sect);
    x + CACHE_TIME + WriteDelay(g.rev, g.sectors[p.0], p.1, (x + CACHE_TIME) % SECOND)
  }

  /** When a read on its track at x is done, the head having got there before: its sector over, and out of the buffer. */
  function ReadEnd(g: Geometry, sect: nat, arrSecs: nat, arrNsecs: nat, x: nat): int
    requires GeometryOk(g) && sect < g.total
  {
    var p := Locate(g.sectors, sect);
    x + ReadDelay(g.rev, g.sectors[p.0], p.1, arrSecs, arrNsecs, x / SECOND, x % SECOND) + CACHE_TIME
  }

  function OnTrackEnd(g: Geometry, d: Device, val: bv32, x: nat): int
    requires GeometryOk(g) && d.sect < g.total
  {
    if val == WRITING then WriteEnd(g, d.sect, x) else ReadEnd(g, d.sect, d.arrSecs, d.arrNsecs, x)
  }

  /** The device is done at time `end`, after at most n timers. */
  ghost predicate DoneAt(g: Geometry, d: Device, x: nat, err: bool, n: nat, end: int)
    requires GeometryOk(g)
  {
    var (r, x') := Punctual(g, d, x, err, n); r.timers == [] && x' == end
  }

  /** After its one timer. */
  lemma TimerThen(g: Geometry, d: Device, x: nat, err: bool, n: nat, x': nat, d': Device, end: int)
    requires GeometryOk(g) && n > 0 && d.timers != [] && x' == x + d.timers[0].nsecs && d' == Fire(g, d, At(x', err))
    requires DoneAt(g, d', x', err, n - 1, end)
    ensures DoneAt(g, d, x, err, n, end)
  {
    assert Punctual(g, d, x, err, n) == Punctual(g, d', x', err, n - 1);
  }

  lemma LastDone(g: Geometry, d: Device, val: bv32, x: nat, err: bool, n: nat)
    requires Asked(g, d, val) && d.track == Locate(g.sectors, d.sect).0 && d.worktries < MAX_WORKTRIES
    requires d.iostatus >= (if IsWrite(val) then 2 else 3)
    ensures DoneAt(g, Update(g, d, At(x, err)), x, err, n, x)
  {
    FinishBits(val);
  }

  lemma CopyDone(g: Geometry, d: Device, x: nat, err: bool, n: nat)
    requires Asked(g, d, READING) && d.track == Locate(g.sectors, d.sect).0 && d.iostatus == 2 && d.worktries + 1 < MAX_WORKTRIES && n >= 1
    ensures DoneAt(g, Update(g, d, At(x, err)), x, err, n, x + CACHE_TIME)
  {
    FinishBits(READING);
    var w, t := Update(g, d, At(x, err)), Timer(CACHE_TIME, 3, false);
    assert w.timers == [t];
    var x' := x + CACHE_TIME;
    LastDone(g, Expired(w, At(x', err)), READING, x', err, n - 1);
    TimerThen(g, w, x, err, n, x', Fire(g, w, At(x', err)), x');
  }

  lemma ReadDone(g: Geometry, d: Device, x: nat, err: bool, n: nat)
    requires Asked(g, d, READING) && d.track == Locate(g.sectors, d.sect).0 && d.iostatus == 0 && d.worktries + 2 < MAX_WORKTRIES && n >= 2
    ensures DoneAt(g, Update(g, d, At(x, err)), x, err, n, OnTrackEnd(g, d, READING, x))
  {
    FinishBits(READING);
    var w, rot := Update(g, d, At(x, err)), RotDelay(g, d, At(x, err));
    if rot > 0 {
      assert w.timers == [Timer(rot, 2, false)];
      var x' := x + rot;
      CopyDone(g, Expired(w, At(x', err)), x', err, n - 1);
      TimerThen(g, w, x, err, n, x', Fire(g, w, At(x', err)), x' + CACHE_TIME);
    } else {
      assert w.timers == [Timer(CACHE_TIME, 3, false)];
      var x' := x + CACHE_TIME;
      LastDone(g, Expired(w, At(x', err)), READING, x', err, n - 1);
      TimerThen(g, w, x, err, n, x', Fire(g, w, At(x', err)), x');
    }
  }

  lemma RotNotNegative(g: Geometry, d: Device, m: Moment)
    requires GeometryOk(g) && d.sect < g.total
    ensures RotDelay(g, d, m) >= 0
  {
    var p := Locate(g.sectors, d.sect);
    WriteNotNegative(g.rev, g.sectors[p.0], p.1, m.nsecs);
  }

  lemma PlatterDone(g: Geometry, d: Device, x: nat, err: bool, n: nat)
    requires Asked(g, d, WRITING) && d.track == Locate(g.sectors, d.sect).0 && d.iostatus == 1 && d.worktries + 1 < MAX_WORKTRIES && n >= 1
    ensures DoneAt(g, Update(g, d, At(x, err)), x, err, n, x + RotDelay(g, d, At(x, err)))
  {
    FinishBits(WRITING);
    var w, rot := Update(g, d, At(x, err)), RotDelay(g, d, At(x, err));
    RotNotNegative(g, d, At(x, err));
    if rot == 0 {
      assert w.timers == [];
    } else {
      assert w.timers == [Timer(rot, 2, false)];
      var x' := x + rot;
      LastDone(g, Expired(w, At(x', err)), WRITING, x', err, n - 1);
      TimerThen(g, w, x, err, n, x', Fire(g, w, At(x', err)), x');
    }
  }

  lemma WriteDone(g: Geometry, d: Device, x: nat, err: bool, n: nat)
    requires Asked(g, d, WRITING) && d.track == Locate(g.sectors, d.sect).0 && d.iostatus == 0 && d.worktries + 2 < MAX_WORKTRIES && n >= 2
    ensures DoneAt(g, Update(g, d, At(x, err)), x, err, n, OnTrackEnd(g, d, WRITING, x))
  {
    FinishBits(WRITING);
    var w, t := Update(g, d, At(x, err)), Timer(CACHE_TIME, 1, false);
    assert w.timers == [t];
    var x' := x + CACHE_TIME;
    PlatterDone(g, Expired(w, At(x', err)), x', err, n - 1);
    TimerThen(g, w, x, err, n, x', Fire(g, w, At(x', err)), OnTrackEnd(g, d, WRITING, x));
  }

  /**
   How long an undisturbed operation takes when its timers are punctual: the seek, if its track is another; then
   a write fills the cache and waits for its sector to come and pass, a read waits for the end of its sector
   and is copied out of the buffer.
   */
  lemma ServiceTime(g: Geometry, d: Device, val: bv32, x: nat, err: bool, n: nat)
    requires GeometryOk(g) && Quiet(d) && d.sect < g.total && (val == READING || val == WRITING) && d.worktries <= 6 && n >= 3
    ensures var cyl := Locate(g.sectors, d.sect).0; var seek := g.seek(Distance(cyl, d.track));
            DoneAt(g, SetStatus(g, d, val, At(x, err)), x, err, n,
                   if d.track == cyl then OnTrackEnd(g, d, val, x)
                   else if val == WRITING then WriteEnd(g, d.sect, x + seek)
                   else ReadEnd(g, d.sect, (x + seek) / SECOND, (x + seek) % SECOND, x + seek))
  {
    var cyl := Locate(g.sectors, d.sect).0;
    var asked := d.(stat := val, iostatus := 0);
    FinishBits(val);
    if d.track == cyl {
      OnTrackDone(g, asked, val, x, err, n);
    } else {
      SeekDone(g, asked, val, x, err, n);
    }
  }

  lemma SeekDone(g: Geometry, d: Device, val: bv32, x: nat, err: bool, n: nat)
    requires Asked(g, d, val) && d.track != Locate(g.sectors, d.sect).0 && d.iostatus == 0 && d.worktries <= 6 && n >= 3
    ensures var x' := x + g.seek(Distance(Locate(g.sectors, d.sect).0, d.track));
            DoneAt(g, Update(g, d, At(x, err)), x, err, n,
                   if val == WRITING then WriteEnd(g, d.sect, x') else ReadEnd(g, d.sect, x' / SECOND, x' % SECOND, x'))
  {
    var w, d1, x' := Seeks(g, d, val, x, err);
    OnTrackDone(g, d1, val, x', err, n - 1);
    TimerThen(g, w, x, err, n, x', Update(g, d1, At(x', err)), OnTrackEnd(g, d1, val, x'));
  }

  lemma Seeks(g: Geometry, d: Device, val: bv32, x: nat, err: bool) returns (w: Device, d1: Device, x': nat)
    requires Asked(g, d, val) && d.track != Locate(g.sectors, d.sect).0 && d.iostatus == 0 && d.worktries < MAX_WORKTRIES
    ensures w == Update(g, d, At(x, err)) && w.timers != [] && x' == x + w.timers[0].nsecs
    ensures x' == x + g.seek(Distance(Locate(g.sectors, d.sect).0, d.track))
    ensures Update(g, d1, At(x', err)) == Fire(g, w, At(x', err)) && Asked(g, d1, val) && d1.track == Locate(g.sectors, d.sect).0
    ensures d1.iostatus == 0 && d1.worktries == d.worktries + 1 && d1.sect == d.sect && d1.arrSecs == x' / SECOND && d1.arrNsecs == x' % SECOND
  {
    FinishBits(val);
    var cyl := Locate(g.sectors, d.sect).0;
    w, x' := Update(g, d, At(x, err)), x + g.seek(Distance(cyl, d.track));
    d1 := Expired(w, At(x', err));
  }

  lemma OnTrackDone(g: Geometry, d: Device, val: bv32, x: nat, err: bool, n: nat)
    requires Asked(g, d, val) && d.track == Locate(g.sectors, d.sect).0 && d.iostatus == 0 && d.worktries + 2 < MAX_WORKTRIES && n >= 2
    ensures DoneAt(g, Update(g, d, At(x, err)), x, err, n, OnTrackEnd(g, d, val, x))
  {
    if val == WRITING {
      WriteDone(g, d, x, err, n);
    } else {
      ReadDone(g, d, x, err, n);
    }
  }

  /** With no abandoned operation behind it, the fallback is never taken. */
  lemma NoFallback(g: Geometry, d: Device, val: bv32, m: Moment, ms: seq<Moment>)
    requires GeometryOk(g) && Quiet(d) && d.sect < g.total && (val == READING || val == WRITING) && |ms| >= 3
    requires d.worktries <= 6
    ensures Drive(g, SetStatus(g, d, val, m), ms).faults == d.faults
  {
    Undisturbed(g, d, val, m, ms);
  }

  /** A write that is started and taken back, and the expiry of its timer. */
  datatype Outing = Outing(start: Moment, back: Moment, expiry: Moment)

  /** Start a write and take it back before its first timer expires. */
  function TakenBack(g: Geometry, d: Device, o: Outing): Device
    requires GeometryOk(g)
  {
    var b := SetStatus(g, SetStatus(g, d, WRITING, o.start), IDLE, o.back);
    if b.timers == [] then b else Fire(g, b, o.expiry)
  }

  /** ... again and again. */
  function Abandon(g: Geometry, d: Device, os: seq<Outing>): Device
    requires GeometryOk(g)
    decreases |os|
  {
    if os == [] then d else Abandon(g, TakenBack(g, d, os[0]), os[1..])
  }

  /** Quiet again, nothing transferred, n tries more. */
  ghost predicate Again(d: Device, r: Device, n: nat) {
    Quiet(r) && r.worktries == d.worktries + n && r.faults == d.faults && r.log == d.log && r.sect == d.sect
  }

  lemma AbandonOnce(g: Geometry, d: Device, o: Outing)
    requires GeometryOk(g) && Quiet(d) && d.sect < g.total && d.worktries < MAX_WORKTRIES
    ensures Again(d, TakenBack(g, d, o), 1)
  {
    FinishBits(WRITING);
    var a := SetStatus(g, d, WRITING, o.start);
    var b := SetStatus(g, a, IDLE, o.back);
    assert b.timers == a.timers && |a.timers| == 1;
  }

  /** Every abandoned write leaves its try behind, whenever it is started, taken back and its timer expires. */
  lemma {:induction false} AbandonedTries(g: Geometry, d: Device, os: seq<Outing>)
    requires GeometryOk(g) && Quiet(d) && d.sect < g.total && d.worktries + |os| <= MAX_WORKTRIES
    ensures Again(d, Abandon(g, d, os), |os|)
    decreases |os|
  {
    if os != [] {
      AbandonOnce(g, d, os[0]);
      AbandonedTries(g, TakenBack(g, d, os[0]), os[1..]);
    }
  }

  /** So the fallback is within a guest's reach: ten writes abandoned, then any operation. */
  lemma FallbackReachable(g: Geometry, d: Device, os: seq<Outing>, val: bv32, m: Moment, ms: seq<Moment>)
    requires GeometryOk(g) && Quiet(d) && d.sect < g.total && (val == READING || val == WRITING) && |ms| >= 3
    requires d.worktries == 0 && |os| == MAX_WORKTRIES
    ensures Drive(g, SetStatus(g, Abandon(g, d, os), val, m), ms).faults == d.faults + 1
  {
    AbandonedTries(g, d, os);
    var a := Abandon(g, d, os);
    Overtried(g, a.(stat := val, iostatus := 0), val, m, ms, 0);
  }

  /** A request is refused at once, without a transfer, exactly for a sector off the end of the disk. */
  lemma InvalidSector(g: Geometry, d: Device, val: bv32, m: Moment)
    requires GeometryOk(g) && Quiet(d) && (val == READING || val == WRITING)
    ensures var r := SetStatus(g, d, val, m);
            (r.stat & INVSECT != 0 <==> d.sect >= g.total)
            && (d.sect >= g.total ==> Quiet(r) && r.irq && r.stat == Reported(val == WRITING, false) | INVSECT && r.log == d.log && r.worktries == 0)
  {
  }

  // ---- the device itself -----------------------------------------------------------------

  predicate NotLater(m: Moment, m': Moment) {
    m.secs * SECOND + m.nsecs <= m'.secs * SECOND + m'.nsecs
  }

  /** The head came to its track no later than m. */
  predicate Arrived(d: Device, m: Moment) {
    m.nsecs < SECOND && d.arrNsecs < SECOND && d.arrSecs * SECOND + d.arrNsecs <= m.secs * SECOND + m.nsecs
  }

  lemma ArrivedStill(g: Geometry, d: Device, s: Step, m: Moment)
    requires GeometryOk(g) && Arrived(d, m)
    ensures Arrived(Apply(g, d, s, m), m)
  {
    match s
    case WriteStatus(val) => UpdateArrived(g, d.(stat := val, iostatus := if val == IDLE then -1 else 0), m);
    case WriteSector(_) =>
    case Expire =>
      if d.timers != [] {
        UpdateArrived(g, Expired(d, m), m);
      }
  }

  lemma UpdateArrived(g: Geometry, d: Device, m: Moment)
    requires GeometryOk(g) && Arrived(d, m)
    ensures Arrived(Update(g, d, m), m)
  {
  }

  lemma {:induction false} RunSnoc(g: Geometry, d: Device, steps: seq<(Step, Moment)>, x: (Step, Moment))
    requires GeometryOk(g)
    ensures Run(g, d, steps + [x]) == Apply(g, Run(g, d, steps), x.0, x.1)
    decreases |steps|
  {
    if steps == [] {
      assert steps + [x] == [x] && [x][1..] == [];
    } else {
      assert (steps + [x])[1..] == steps[1..] + [x];
      RunSnoc(g, Apply(g, d, steps[0].0, steps[0].1), steps[1..], x);
    }
  }

  /** The clock does not go back along a script that starts at m or later. */
  ghost predicate Timely(m: Moment, steps: seq<(Step, Moment)>) {
    && (forall i :: 0 <= i < |steps| ==> steps[i].1.nsecs < SECOND && NotLater(m, steps[i].1))
    && (forall i, j :: 0 <= i < j < |steps| ==> NotLater(steps[i].1, steps[j].1))
  }

  class DiskDevice {
    const g: Geometry
    var track: nat
    var arrSecs: nat
    var arrNsecs: nat
    var iostatus: int
    var timedop: bool
    var worktries: nat
    var stat: bv32
    var sect: nat
    var irq: bool
    var timers: seq<Timer>
    ghost var log: seq<Transfer>
    ghost var faults: nat

    ghost function View(): Device
      reads this
    {
      Device(track, arrSecs, arrNsecs, iostatus, timedop, worktries, stat, sect, irq, timers, log, faults)
    }

    /** The geometry is sound and time has not gone back since the head came to its track. */
    ghost predicate Ready(m: Moment)
      reads this
    {
      GeometryOk(g) && Arrived(View(), m)
    }

    /** disk_init's state, given a geometry and an accepted rpm. */
    constructor (sectors: seq<nat>, total: nat, rpm: nat, seek: nat -> nat, now: Moment)
      requires total <= Sum(sectors) < WORD && AcceptedRpm(rpm) && now.nsecs < SECOND
      ensures Ready(now) && Quiet(View()) && Inv(g, View()) && worktries == 0 && faults == 0
      ensures g == Geometry(sectors, total, NsecsPerRev(rpm), seek)
    {
      RevBounds(rpm);
      g := Geometry(sectors, total, NsecsPerRev(rpm), seek);
      track, arrSecs, arrNsecs, iostatus, timedop, worktries := 0, now.secs, now.nsecs, -1, false, 0;
      stat, sect, irq, timers, log, faults := IDLE, 0, false, [], [], 0;
    }

    method ScheduleEvent(nsecs: nat, code: nat, seek: bool)
      modifies this`timedop, this`timers
      ensures View() == Waiting(old(View()), Timer(nsecs, code, seek))
    {
      timedop := true;
      timers := timers + [Timer(nsecs, code, seek)];
    }

    /** The end of disk_work: the transfer and the final status. */
    method ForceIo(err: bool)
      modifies this`stat, this`worktries, this`log
      ensures View() == Transferred(old(View()), err)
    {
      log := log + [Transfer(sect, IsWrite(stat))];
      if err {
        stat := Finish(stat, COMPLETE | MEDIAERR);
        worktries := 0;
      } else {
        stat := Finish(stat, COMPLETE);
        worktries := 0;
      }
    }

    /** disk_work from the rotational wait on. */
    method WaitAndCopy(cyl: nat, rot: nat, m: Moment)
      requires Ready(m) && sect < g.total && (cyl, rot) == Locate(g.sectors, sect)
      modifies this`timedop, this`timers, this`iostatus, this`stat, this`worktries, this`log
      ensures View() == Rotate(g, old(View()), m)
    {
      if iostatus < 2 {
        var rotdelay: nat;
        if IsWrite(stat) {
          rotdelay := WriteRotDelay(g.rev, g.sectors[cyl], rot, m.nsecs);
        } else {
          rotdelay := ReadRotDelay(g.rev, g.sectors[cyl], rot, arrSecs, arrNsecs, m.secs, m.nsecs);
        }
        if rotdelay > 0 {
          ScheduleEvent(rotdelay, 2, false);
          return;
        }
        iostatus := 2;
      }
      if !IsWrite(stat) && iostatus < 3 {
        ScheduleEvent(CACHE_TIME, 3, false);
        return;
      }
      ForceIo(m.err);
    }

    /** The "geometry modeling fault" branch of disk_work, where worktries has just been counted up. */
    method SkipTiming(m: Moment)
      requires worktries > 0
      modifies this
      ensures View() == Forced(old(View()).(worktries := old(worktries) - 1), m)
    {
      faults := faults + 1;
      track, arrSecs, arrNsecs, iostatus, timedop := 0, m.secs, m.nsecs, -1, false;
      ForceIo(m.err);
    }

    /** disk_work; its alarm for a sector that cannot be located never sounds. */
    method DoWork(m: Moment) returns (smoke: bool)
      requires Ready(m)
      modifies this
      ensures View() == Work(g, old(View()), m) && !smoke
    {
      smoke := false;
      if timedop {
        return;
      }
      if stat & INPROGRESS == 0 {
        return;
      }
      if sect >= g.total {
        stat := Finish(stat, COMPLETE | INVSECT);
        worktries := 0;
        return;
      }
      worktries := worktries + 1;
      if worktries > MAX_WORKTRIES {
        SkipTiming(m);
        return;
      }
      smoke := SeekAndWait(m);
    }

    /** disk_work once the request has been found worth trying. */
    method SeekAndWait(m: Moment) returns (smoke: bool)
      requires Ready(m) && sect < g.total
      modifies this`timedop, this`timers, this`iostatus, this`stat, this`worktries, this`log
      ensures View() == Attempt(g, old(View()), m) && !smoke
    {
      var cyl, rot;
      cyl, rot, smoke := LocateSector(g.sectors, sect);
      if track != cyl {
        var distance := cyl - track;
        if distance < 0 {
          distance := -distance;
        }
        ScheduleEvent(g.seek(distance), cyl, true);
        return;
      }
      if IsWrite(stat) && iostatus < 1 {
        ScheduleEvent(CACHE_TIME, 1, false);
        return;
      }
      WaitAndCopy(cyl, rot, m);
    }

    /** disk_update */
    method DoUpdate(m: Moment) returns (smoke: bool)
      requires Ready(m)
      modifies this
      ensures View() == Update(g, old(View()), m) && !smoke
    {
      smoke := DoWork(m);
      if stat & COMPLETE != 0 {
        irq := true;
      } else {
        irq := false;
      }
    }

    /** disk_setstatus; true means the device hangs the machine over an illegal value. */
    method DoSetStatus(val: bv32, m: Moment) returns (hung: bool)
      requires Ready(m)
      modifies this
      ensures View() == SetStatus(g, old(View()), val, m) && (hung <==> !LegalStatus(val))
    {
      if val == IDLE {
        iostatus := -1;
      } else if val == READING {
        iostatus := 0;
      } else if val == WRITING {
        iostatus := 0;
      } else {
        return true;
      }
      stat := val;
      var smoke := DoUpdate(m);
      return false;
    }

    /** The clock calls back: disk_seekdone or disk_waitdone. */
    method Callback(m: Moment) returns (smoke: bool)
      requires Ready(m) && timers != []
      modifies this
      ensures View() == Fire(g, old(View()), m) && !smoke
    {
      var t := timers[0];
      timers := timers[1..];
      if t.seek {
        track := t.code;
        arrSecs, arrNsecs := m.secs, m.nsecs;
      } else {
        iostatus := t.code;
      }
      timedop := false;
      smoke := DoUpdate(m);
    }

    /** One step of a script; true means the device has hung the machine. */
    method Perform(s: Step, m: Moment) returns (hung: bool, smoke: bool)
      requires Ready(m)
      modifies this
      ensures View() == Apply(g, old(View()), s, m) && (hung <==> s.WriteStatus? && !LegalStatus(s.val)) && !smoke
      ensures Ready(m)
    {
      ArrivedStill(g, View(), s, m);
      hung, smoke := false, false;
      match s {
        case WriteStatus(val) =>
          hung := DoSetStatus(val, m);
        case WriteSector(n) =>
          sect := n;
        case Expire =>
          if timers != [] {
            smoke := Callback(m);
          }
      }
    }

    /** Any script of guest writes and timer expiries, in the order of time, up to an illegal status. */
    method Play(steps: seq<(Step, Moment)>, ghost m: Moment) returns (done: nat, smoke: bool)
      requires Ready(m) && Inv(g, View()) && Timely(m, steps)
      modifies this
      ensures done <= |steps| && View() == Run(g, old(View()), steps[..done]) && Inv(g, View()) && !smoke
      ensures done < |steps| ==> done > 0 && steps[done - 1].0.WriteStatus? && !LegalStatus(steps[done - 1].0.val)
    {
      done, smoke := 0, false;
      ghost var now := m;
      while done < |steps|
        invariant 0 <= done <= |steps| && View() == Run(g, old(View()), steps[..done]) && !smoke
        invariant Ready(now) && now == (if done == 0 then m else steps[done - 1].1)
      {
        now := steps[done].1;
        RunSnoc(g, old(View()), steps[..done], steps[done]);
        assert steps[..done + 1] == steps[..done] + [steps[done]];
        var hung;
        hung, smoke := Perform(steps[done].0, steps[done].1);
        done := done + 1;
        if hung {
          break;
        }
      }
      EveryRun(g, old(View()), steps[..done]);
    }
  }
}
