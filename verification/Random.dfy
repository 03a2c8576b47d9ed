/**
 The additive-feedback random number generator of libc (os161-1.11/lib/libc/random.c): a
 circular table with a front and a rear pointer, and states that can be put away and resumed.
 */
module RandomStream {
  import opened Prelude

  /** One step of the shift register x[n] = x[n - deg] + x[n - sep], holding the last deg words. */
  function Shift(w: seq<int>, sep: nat): seq<int>
    requires 0 < sep <= |w|
  {
    w[1..] + [(w[0] + w[|w| - sep]) % WORD]
  }

  function ShiftN(w: seq<int>, sep: nat, n: nat): (r: seq<int>)
    requires 0 < sep <= |w|
    ensures |r| == |w|
  {
    if n == 0 then w else Shift(ShiftN(w, sep, n - 1), sep)
  }

  /** The words a register starts from, followed by the n it produces. */
  function Stream(w: seq<int>, sep: nat, n: nat): (r: seq<int>)
    requires 0 < sep <= |w|
    ensures |r| == |w| + n
  {
    if n == 0 then w
    else var s := Stream(w, sep, n - 1); s + [(s[|s| - |w|] + s[|s| - sep]) % WORD]
  }

  /** The register always holds the latest words of the stream. */
  lemma {:induction false} RegisterHoldsStream(w: seq<int>, sep: nat, n: nat)
    requires 0 < sep <= |w|
    ensures ShiftN(w, sep, n) == Stream(w, sep, n)[n..]
  {
    if n > 0 {
      RegisterHoldsStream(w, sep, n - 1);
      ShiftAlong(ShiftN(w, sep, n - 1), Stream(w, sep, n - 1), sep, n - 1);
    }
  }

  lemma ShiftAlong(r: seq<int>, s: seq<int>, sep: nat, k: nat)
    requires 0 < sep <= |r| && k + |r| == |s| && r == s[k..]
    ensures Shift(r, sep) == (s + [(s[|s| - |r|] + s[|s| - sep]) % WORD])[k + 1..]
  {
    assert r[0] == s[k] && r[|r| - sep] == s[|s| - sep];
    DropSnoc(s, k, (r[0] + r[|r| - sep]) % WORD);
  }

  lemma DropSnoc(s: seq<int>, k: nat, v: int)
    requires k < |s|
    ensures (s + [v])[k + 1..] == s[k..][1..] + [v]
  {
  }

  /** The stream obeys the trinomial recurrence from its first produced word on. */
  lemma {:induction false} StreamRecurrence(w: seq<int>, sep: nat, n: nat, i: nat)
    requires 0 < sep <= |w| <= i < |w| + n
    ensures Stream(w, sep, n)[i] == (Stream(w, sep, n)[i - |w|] + Stream(w, sep, n)[i - sep]) % WORD
  {
    if i < |w| + n - 1 {
      StreamRecurrence(w, sep, n - 1, i);
    }
  }

  /** Slot k places after f in a circular table. */
  function Slot(f: nat, k: nat, deg: nat): (r: nat)
    requires f < deg && k <= deg
    ensures r < deg
  {
    if f + k < deg then f + k else f + k - deg
  }

  /** The table from the front pointer round; word 0 of a state is not part of the table. */
  ghost function Window(t: seq<int>, f: nat, deg: nat): (w: seq<int>)
    requires f < deg < |t|
    ensures |w| == deg && forall k :: 0 <= k < deg ==> w[k] == t[1 + Slot(f, k, deg)]
  {
    seq(deg, k requires 0 <= k < deg => t[1 + Slot(f, k, deg)])
  }

  /** Adding the rear word into the front word and advancing both is one shift of the register. */
  lemma WindowStep(t: seq<int>, t': seq<int>, f: nat, r: nat, deg: nat, sep: nat)
    requires f < deg < |t| && r < deg && 0 < sep < deg && f == Slot(r, sep, deg)
    requires t' == t[1 + f := (t[1 + f] + t[1 + r]) % WORD]
    ensures Window(t', Slot(f, 1, deg), deg) == Shift(Window(t, f, deg), sep)
    ensures Window(t', Slot(f, 1, deg), deg)[deg - 1] == t'[1 + f]
  {
    var v := (t[1 + f] + t[1 + r]) % WORD;
    var w, w' := Window(t, f, deg), Window(t', Slot(f, 1, deg), deg);
    assert w[0] == t[1 + f];
    assert Slot(f, deg - sep, deg) == r;
    assert Shift(w, sep)[deg - 1] == v;
    forall k | 0 <= k < deg
      ensures w'[k] == Shift(w, sep)[k]
    {
      if k < deg - 1 {
        assert Slot(Slot(f, 1, deg), k, deg) == Slot(f, k + 1, deg) != f;
      } else {
        assert Slot(Slot(f, 1, deg), k, deg) == f;
      }
    }
  }
}

module Random {
  import opened Prelude
  import opened RandomStream

  const MAX_TYPES := 5

  function Degree(t: nat): nat
    requires t < MAX_TYPES
  {
    if t == 0 then 0 else if t == 1 then 7 else if t == 2 then 15 else if t == 3 then 31 else 63
  }

  function Sep(t: nat): (s: nat)
    requires t < MAX_TYPES
    ensures t > 0 ==> 0 < s < Degree(t)
  {
    if t == 0 then 0 else if t == 1 then 3 else if t == 2 then 1 else if t == 3 then 3 else 1
  }

  /** The best generator for n bytes of state, at least 8. */
  function BestType(n: nat): (t: nat)
    ensures t < MAX_TYPES
  {
    if n < 32 then 0 else if n < 64 then 1 else if n < 128 then 2 else if n < 256 then 3 else 4
  }

  /** The bytes of state a type takes: its register and a word before it; for the trivial one, two words. */
  function StateBytes(t: nat): nat
    requires t < MAX_TYPES
  {
    if t == 0 then 8 else 4 * (Degree(t) + 1)
  }

  /** BestType is the largest type whose state fits. */
  lemma BestTypeFits(n: nat, t: nat)
    requires n >= 8 && t < MAX_TYPES
    ensures StateBytes(t) <= n <==> t <= BestType(n)
  {
  }

  /** What a generator will produce: a linear congruential seed, or a register with its type. */
  datatype Generator = Trivial(seed: int) | Feedback(kind: nat, register: seq<int>)

  /** The first n numbers random returns. */
  function Outputs(g: Generator, n: nat): (r: seq<int>)
    requires Proper(g)
    ensures |r| == n && forall k :: 0 <= k < n ==> r[k] == Output(Steps(g, k + 1))
  {
    if n == 0 then [] else Outputs(g, n - 1) + [Output(Steps(g, n))]
  }

  ghost predicate Words(t: seq<int>) {
    forall i :: 0 <= i < |t| ==> 0 <= t[i] < WORD
  }

  /** A state with its word 0 filled in: five times the rear pointer plus the type. */
  ghost predicate Saved(t: seq<int>) {
    && |t| > 1 && Words(t) && t[0] < 0x8000_0000
    && var kind := t[0] % MAX_TYPES;
       (kind > 0 ==> |t| > Degree(kind) && t[0] / MAX_TYPES < Degree(kind))
  }

  /** The generator a saved state stands for. */
  ghost function Resumed(t: seq<int>): Generator
    requires Saved(t)
  {
    var kind := t[0] % MAX_TYPES;
    if kind == 0 then Trivial(t[1])
    else Feedback(kind, Window(t, Slot(t[0] / MAX_TYPES, Sep(kind), Degree(kind)), Degree(kind)))
  }

  /** The remainder of a 32-bit signed word, with the sign of the word as C has it. */
  function SignedRemainder(w: int): int
    requires 0 <= w < WORD
  {
    if w < 0x8000_0000 then w % MAX_TYPES else -((WORD - w) % MAX_TYPES)
  }

  /** What random does to a generator, and what it returns of the result. */
  function Step(g: Generator): Generator
    requires Proper(g)
  {
    match g
    case Trivial(seed) => Trivial((seed * 1103515245 + 12345) % 0x8000_0000)
    case Feedback(kind, register) => Feedback(kind, Shift(register, Sep(kind)))
  }

  ghost predicate Proper(g: Generator) {
    g.Feedback? ==> 0 < g.kind < MAX_TYPES && |g.register| == Degree(g.kind)
  }

  function Steps(g: Generator, n: nat): (r: Generator)
    requires Proper(g)
    ensures Proper(r)
  {
    if n == 0 then g else Step(Steps(g, n - 1))
  }

  function Output(g: Generator): int
    requires g.Feedback? ==> g.register != []
  {
    match g
    case Trivial(seed) => seed
    case Feedback(_, register) => register[|register| - 1] / 2
  }

  function Lcg(x: int): int {
    (1103515245 * x + 12345) % WORD
  }

  /** The table srandom starts from. */
  function SeedTable(x: int, n: nat): (r: seq<int>)
    requires n > 0
    ensures |r| == n
  {
    if n == 1 then [x] else var s := SeedTable(x, n - 1); s + [Lcg(s[n - 2])]
  }

  /** ... as seen from the front pointer, sep places in. */
  ghost function SeedRegister(x: int, kind: nat): (r: seq<int>)
    requires 0 < kind < MAX_TYPES
    ensures |r| == Degree(kind)
  {
    var s := SeedTable(x, Degree(kind));
    s[Sep(kind)..] + s[..Sep(kind)]
  }

  ghost function Seeded(x: int, kind: nat): Generator
    requires kind < MAX_TYPES
  {
    if kind == 0 then Trivial(x) else Feedback(kind, ShiftN(SeedRegister(x, kind), Sep(kind), 10 * Degree(kind)))
  }

  class Package {
    var cur: array<int>
    var fptr: nat
    var rptr: nat
    var randType: nat
    var randDeg: nat
    var randSep: nat

    /** The two pointers are in the table, randSep places apart. */
    ghost predicate Apart()
      reads this, cur
    {
      0 < randSep < randDeg < cur.Length && Words(cur[..]) && rptr < randDeg && fptr == Slot(rptr, randSep, randDeg)
    }

    ghost predicate Valid()
      reads this, cur
    {
      && randType < MAX_TYPES && randDeg == Degree(randType) && randSep == Sep(randType) && cur.Length > 1 && Words(cur[..])
      && (randType > 0 ==> Apart())
    }

    ghost function View(): Generator
      requires Valid()
      reads this, cur
    {
      if randType == 0 then Trivial(cur[1]) else Feedback(randType, Window(cur[..], fptr, randDeg))
    }

    /** The static initial state: type 3 with the words of randtbl. */
    constructor (table: seq<int>)
      requires |table| == 31 && Words(table)
      ensures Valid() && fresh(cur) && randType == 3 && rptr == 0 && cur[0] == 3 && cur[1..] == table
      ensures Saved(cur[..]) && Resumed(cur[..]) == View()
    {
      cur := new int[32](i requires 0 <= i < 32 => if i == 0 then 3 else table[i - 1]);
      fptr, rptr, randType, randDeg, randSep := 3, 0, 3, 31, 3;
    }

    /** random's moves of both pointers; the rear one is not compared when the front one wraps. */
    method Advance()
      requires 0 < randSep < randDeg && rptr < randDeg && fptr == Slot(rptr, randSep, randDeg)
      modifies this`fptr, this`rptr
      ensures rptr == Slot(old(rptr), 1, randDeg) && fptr == Slot(old(fptr), 1, randDeg) == Slot(rptr, randSep, randDeg)
    {
      var f, r := fptr, rptr;
      f := f + 1;
      if f >= randDeg {
        f := 0;
        r := r + 1;
      } else {
        r := r + 1;
        if r >= randDeg {
          r := 0;
        }
      }
      fptr, rptr := f, r;
    }

    /** random on a feedback generator: one shift, and the new word without its lowest bit. */
    method RandomFeedback() returns (i: int)
      requires Apart()
      modifies cur, this`fptr, this`rptr
      ensures Apart() && rptr == Slot(old(rptr), 1, randDeg) && cur[0] == old(cur[0])
      ensures Window(cur[..], fptr, randDeg) == Shift(old(Window(cur[..], fptr, randDeg)), randSep)
      ensures i == Window(cur[..], fptr, randDeg)[randDeg - 1] / 2
    {
      ghost var t := cur[..];
      var f, r := fptr, rptr;
      cur[1 + f] := (cur[1 + f] + cur[1 + r]) % WORD;
      i := cur[1 + f] / 2 % 0x8000_0000;
      WindowStep(t, cur[..], f, r, randDeg, randSep);
      Advance();
    }

    /** random */
    method RandomUnlocked() returns (i: int)
      requires Valid()
      modifies cur, this`fptr, this`rptr
      ensures Valid() && cur[0] == old(cur[0])
      ensures View() == Step(old(View())) && i == Output(View())
      ensures randType > 0 ==> rptr == Slot(old(rptr), 1, randDeg)
    {
      if randType == 0 {
        i := (cur[1] * 1103515245 + 12345) % 0x8000_0000;
        cur[1] := i;
      } else {
        i := RandomFeedback();
      }
    }

    /** srandom's linear congruential fill of the table. */
    method FillSeed(x: int)
      requires 0 < randDeg < cur.Length && Words(cur[..]) && 0 <= x < WORD
      modifies cur
      ensures Words(cur[..]) && cur[1..1 + randDeg] == SeedTable(x, randDeg) && cur[0] == old(cur[0])
    {
      cur[1] := x;
      var i := 1;
      while i < randDeg
        invariant 1 <= i <= randDeg && Words(cur[..]) && cur[0] == old(cur[0])
        invariant cur[1..1 + i] == SeedTable(x, i)
      {
        cur[1 + i] := Lcg(cur[i]);
        i := i + 1;
        assert cur[1..1 + i] == cur[1..i] + [cur[i]];
      }
    }

    /** srandom's warm-up: after ten times round, the rear pointer is back where it started. */
    method WarmUp()
      requires Apart() && rptr == 0
      modifies cur, this`fptr, this`rptr
      ensures Apart() && rptr == 0 && cur[0] == old(cur[0])
      ensures Window(cur[..], fptr, randDeg) == ShiftN(old(Window(cur[..], fptr, randDeg)), randSep, 10 * randDeg)
    {
      Discard(10 * randDeg, Window(cur[..], fptr, randDeg));
      WholeTurns(10, randDeg);
    }

    /** The register w has been shifted n times since the rear pointer was at 0. */
    ghost predicate Shifted(w: seq<int>, n: nat)
      reads this, cur
    {
      Apart() && |w| == randDeg && rptr == Position(n, randDeg) && Window(cur[..], fptr, randDeg) == ShiftN(w, randSep, n)
    }

    /** n numbers thrown away. */
    method Discard(n: nat, ghost w: seq<int>)
      requires Shifted(w, 0)
      modifies cur, this`fptr, this`rptr
      ensures Shifted(w, n) && cur[0] == old(cur[0])
    {
      var i := 0;
      while i < n
        invariant 0 <= i <= n && Shifted(w, i) && cur[0] == old(cur[0])
      {
        DiscardOne(w, i);
        i := i + 1;
      }
    }

    method DiscardOne(ghost w: seq<int>, ghost i: nat)
      requires Shifted(w, i)
      modifies cur, this`fptr, this`rptr
      ensures Shifted(w, i + 1) && cur[0] == old(cur[0])
    {
      var r := RandomFeedback();
    }

    /** srandom */
    method SrandomUnlocked(x: int)
      requires randType < MAX_TYPES && randDeg == Degree(randType) && randSep == Sep(randType)
      requires cur.Length > 1 && cur.Length > randDeg && Words(cur[..]) && 0 <= x < WORD
      modifies cur, this`fptr, this`rptr
      ensures Valid() && View() == Seeded(x, randType) && (randType > 0 ==> rptr == 0)
    {
      if randType == 0 {
        cur[1] := x;
      } else {
        FillSeed(x);
        fptr, rptr := randSep, 0;
        SeedWindow(cur[..], x, randType);
        WarmUp();
      }
    }

    /** n calls of random. */
    method Run(n: nat) returns (outs: seq<int>)
      requires Valid()
      modifies cur, this`fptr, this`rptr
      ensures Valid() && cur[0] == old(cur[0])
      ensures View() == Steps(old(View()), n)
      ensures outs == Outputs(old(View()), n)
      decreases n
    {
      if n == 0 {
        return [];
      }
      outs := Run(n - 1);
      var x := RandomUnlocked();
      outs := outs + [x];
    }

    /** Away to another state, n numbers from it, and back: the first sequence goes on where it was. */
    method Interlude(b: array<int>, n: nat)
      requires Valid() && b != cur && Saved(b[..])
      modifies this, cur, b
      ensures Valid() && cur == old(cur) && View() == old(View())
    {
      var a := SetState(b);
      if a != null {
        var outs := Run(n);
        var back := SetState(a);
      }
    }

    /** What initstate and setstate put in word 0 of a state. */
    function SaveWord(): int
      reads this
    {
      if randType == 0 then 0 else MAX_TYPES * rptr + randType
    }

    /** Saving the current state loses nothing: resumed, it is the generator it was. */
    method Save()
      requires Valid()
      modifies cur
      ensures Valid() && View() == old(View()) && cur[..] == old(cur[..])[0 := old(SaveWord())]
      ensures Saved(cur[..]) && Resumed(cur[..]) == View()
    {
      SaveWordSplits(rptr, randType);
      ghost var t := cur[..];
      cur[0] := if randType == 0 then randType else MAX_TYPES * rptr + randType;
      assert cur[..] == t[0 := old(SaveWord())];
      if randType > 0 {
        SameWindow(t, cur[..], fptr, randDeg);
      }
    }

    method SetType(kind: nat)
      requires kind < MAX_TYPES
      modifies this`randType, this`randDeg, this`randSep
      ensures randType == kind && randDeg == Degree(kind) && randSep == Sep(kind)
    {
      randType, randDeg, randSep := kind, Degree(kind), Sep(kind);
    }

    /**
     initstate: the best generator the array has room for, seeded, and ready to be put away.
     The state it replaces is put away first; with fewer than eight bytes nothing else happens.
     */
    method InitState(seed: int, a: array<int>, n: nat) returns (ostate: array?<int>)
      requires Valid() && 0 <= seed < WORD && Words(a[..]) && n <= 4 * a.Length
      modifies this, cur, a
      ensures Valid() && (ostate == null <==> n < 8)
      ensures n < 8 ==> cur == old(cur) && View() == old(View()) && Saved(cur[..]) && Resumed(cur[..]) == View()
      ensures n >= 8 ==> ostate == old(cur) && cur == a && View() == Seeded(seed, BestType(n))
      ensures n >= 8 ==> Saved(cur[..]) && Resumed(cur[..]) == View()
      ensures n >= 8 && a != old(cur) ==> Saved(ostate[..]) && Resumed(ostate[..]) == old(View())
    {
      var previous := cur;
      Save();
      if n < 8 {
        return null;
      }
      SetType(BestType(n));
      cur := a;
      SrandomUnlocked(seed);
      Save();
      return previous;
    }

    /**
     setstate: put the current state away and resume another. Null, and the current state
     only put away, when word 0 of the other has a negative remainder.
     */
    method SetState(a: array<int>) returns (ostate: array?<int>)
      requires Valid() && a.Length > 1 && Words(a[..]) && (a[0] < 0x8000_0000 ==> Saved(a[..]))
      modifies this, cur
      ensures Valid() && (ostate == null <==> SignedRemainder(old(a[0])) < 0)
      ensures old(cur)[..] == old(cur[..])[0 := old(SaveWord())]
      ensures ostate == null ==> cur == old(cur) && View() == old(View())
      ensures ostate != null ==> ostate == old(cur) && cur == a
      ensures ostate != null && old(a[0]) < 0x8000_0000 ==> View() == Resumed(old(a[..]))
      ensures ostate != null && old(a[0]) >= 0x8000_0000 ==> View() == Trivial(old(a[1]))
      ensures a != old(cur) ==> Saved(old(cur)[..]) && Resumed(old(cur)[..]) == old(View())
    {
      var previous := cur;
      ghost var t := a[..];
      var kind := SignedRemainder(a[0]);
      var rear := if a[0] < 0x8000_0000 then a[0] / MAX_TYPES else 0;
      Save();
      if kind < 0 {
        return null;
      }
      SetType(kind);
      cur := a;
      if kind != 0 {
        rptr, fptr := rear, Slot(rear, randSep, randDeg);
        SameWindow(t, cur[..], fptr, randDeg);
      }
      return previous;
    }
  }

  lemma {:induction false} StepsShift(kind: nat, w: seq<int>, n: nat)
    requires 0 < kind < MAX_TYPES && |w| == Degree(kind)
    ensures Steps(Feedback(kind, w), n) == Feedback(kind, ShiftN(w, Sep(kind), n))
  {
    if n > 0 {
      StepsShift(kind, w, n - 1);
    }
  }

  /** The k-th number of a feedback generator is the k-th word of the trinomial's stream, halved. */
  lemma OutputsFollowTrinomial(kind: nat, w: seq<int>, k: nat)
    requires 0 < kind < MAX_TYPES && |w| == Degree(kind)
    ensures var x := Stream(w, Sep(kind), k + 1);
            && Output(Steps(Feedback(kind, w), k + 1)) == x[Degree(kind) + k] / 2
            && x[Degree(kind) + k] == (x[k] + x[Degree(kind) + k - Sep(kind)]) % WORD
  {
    StepsShift(kind, w, k + 1);
    RegisterHoldsStream(w, Sep(kind), k + 1);
    StreamRecurrence(w, Sep(kind), k + 1, Degree(kind) + k);
  }

  /** How far round b is from a. */
  function Turn(a: nat, b: nat, deg: nat): (d: nat)
    requires a < deg && b < deg
    ensures d < deg && Slot(a, d, deg) == b && (d == 0 <==> a == b)
  {
    if a <= b then b - a else b + deg - a
  }

  /** Turned by d places, the table is the same table. */
  ghost predicate Periodic(t: seq<int>, deg: nat, d: nat)
    requires d < deg < |t|
  {
    forall i :: 0 <= i < deg ==> t[1 + i] == t[1 + Slot(i, d, deg)]
  }

  lemma WindowsTurn(t: seq<int>, f: nat, d: nat, deg: nat)
    requires f < deg < |t| && d < deg
    ensures Window(t, Slot(f, d, deg), deg) == Window(t, f, deg) <==> Periodic(t, deg, d)
  {
    var w, w' := Window(t, f, deg), Window(t, Slot(f, d, deg), deg);
    forall k | 0 <= k < deg
      ensures Slot(Slot(f, d, deg), k, deg) == Slot(Slot(f, k, deg), d, deg)
    {
    }
    if w' == w {
      forall i | 0 <= i < deg
        ensures t[1 + i] == t[1 + Slot(i, d, deg)]
      {
        var k := Turn(f, i, deg);
        assert w'[k] == w[k];
      }
    }
  }

  /**
   setstate on the current state goes by the rear pointer saved last, not by where the pointer is.
   It resumes the same generator exactly if the table does not change when it is turned from one to the other.
   */
  lemma StaleRearPointer(t: seq<int>, kind: nat, rear: nat)
    requires 0 < kind < MAX_TYPES && Saved(t) && t[0] % MAX_TYPES == kind && rear < Degree(kind)
    ensures Feedback(kind, Window(t, Slot(rear, Sep(kind), Degree(kind)), Degree(kind))) == Resumed(t) <==>
            Periodic(t, Degree(kind), Turn(t[0] / MAX_TYPES, rear, Degree(kind)))
  {
    var deg, sep, saved := Degree(kind), Sep(kind), t[0] / MAX_TYPES;
    assert Slot(rear, sep, deg) == Slot(Slot(saved, sep, deg), Turn(saved, rear, deg), deg);
    WindowsTurn(t, Slot(saved, sep, deg), Turn(saved, rear, deg), deg);
  }

  /** So with words that all differ it does exactly if the pointer is back where it was saved. */
  lemma StaleUnlessBack(t: seq<int>, kind: nat, rear: nat)
    requires 0 < kind < MAX_TYPES && Saved(t) && t[0] % MAX_TYPES == kind && rear < Degree(kind)
    requires forall i, j :: 1 <= i < j <= Degree(kind) ==> t[i] != t[j]
    ensures Feedback(kind, Window(t, Slot(rear, Sep(kind), Degree(kind)), Degree(kind))) == Resumed(t) <==> rear == t[0] / MAX_TYPES
  {
    StaleRearPointer(t, kind, rear);
    var deg, d := Degree(kind), Turn(t[0] / MAX_TYPES, rear, Degree(kind));
    assert Periodic(t, deg, d) ==> t[1] == t[1 + Slot(0, d, deg)];
  }

  /** The words of randtbl after the first. */
  const RANDTBL: seq<int> := [
    0x9a319039, 0x32d9c024, 0x9b663182, 0x5da1f342, 0xde3b81e0, 0xdf0a6fb5, 0xf103bc02, 0x48f340fb,
    0x7449e56b, 0xbeb1dbb0, 0xab5c5918, 0x946554fd, 0x8c2e680f, 0xeb3d799f, 0xb11ee0b7, 0x2d436b86,
    0xda672e2a, 0x1588ca88, 0xe369735d, 0x904f35f7, 0xd7158fd6, 0x6fa6f051, 0x616e6b96, 0xac94efdc,
    0x36413f93, 0xc622c298, 0xf5a42ab8, 0x8a88d77b, 0xf5ad9d0e, 0x8999220b, 0x27fb47b9]

  /** A generator asked for one number and then set to its own state is not where it was. */
  method StaleAfterOne(table: seq<int>) returns (p: Package, ghost before: Generator)
    requires |table| == 31 && Words(table) && (table[3] + table[0]) % WORD != table[4]
    ensures p.Valid() && before == Step(Feedback(3, table[3..] + table[..3])) && p.View() != before
  {
    p := AskOnce(table);
    before := p.View();
    ghost var t := p.cur[..];
    assert Resumed(t).register[0] == t[4];
    var _ := p.SetState(p.cur);
  }

  method AskOnce(table: seq<int>) returns (p: Package)
    requires |table| == 31 && Words(table)
    ensures fresh(p) && fresh(p.cur) && p.Valid() && p.View() == Step(Feedback(3, table[3..] + table[..3]))
    ensures p.cur.Length == 32 && p.cur[0] == 3 && p.cur[4] == (table[3] + table[0]) % WORD && p.View().register[0] == table[4]
  {
    p := new Package(table);
    FirstWindow(p.cur[..], table);
    FirstShift(table);
    var _ := p.RandomUnlocked();
    LastInWindow(p.cur[..]);
  }

  lemma FirstShift(table: seq<int>)
    requires |table| == 31
    ensures var w := Shift(table[3..] + table[..3], 3); w[0] == table[4] && w[30] == (table[3] + table[0]) % WORD
  {
  }

  lemma LastInWindow(t: seq<int>)
    requires |t| == 32
    ensures Window(t, 4, 31)[30] == t[4]
  {
    assert Slot(4, 30, 31) == 3;
  }

  lemma FirstWindow(t: seq<int>, table: seq<int>)
    requires |table| == 31 && |t| == 32 && t[1..] == table
    ensures Window(t, 3, 31) == table[3..] + table[..3]
  {
    forall k | 0 <= k < 31
      ensures Window(t, 3, 31)[k] == (table[3..] + table[..3])[k]
    {
      assert t[1 + Slot(3, k, 31)] == t[1..][Slot(3, k, 31)];
    }
  }

  /** The generator as the library starts it. */
  method StaleInstance() returns (p: Package, ghost before: Generator)
    ensures p.Valid() && before == Step(Feedback(3, RANDTBL[3..] + RANDTBL[..3])) && p.View() != before
  {
    p, before := StaleAfterOne(RANDTBL);
  }

  /** Where a pointer that starts at slot 0 is after i moves. */
  function Position(i: nat, deg: nat): (p: nat)
    requires deg > 0
    ensures p < deg
  {
    if i == 0 then 0 else Slot(Position(i - 1, deg), 1, deg)
  }

  lemma {:induction false} PositionAfter(i: nat, k: nat, deg: nat)
    requires k <= deg && deg > 0
    ensures Position(i + k, deg) == Slot(Position(i, deg), k, deg)
  {
    if k > 0 {
      PositionAfter(i, k - 1, deg);
    }
  }

  /** Whole turns bring it back. */
  lemma {:induction false} WholeTurns(turns: nat, deg: nat)
    requires deg > 0
    ensures Position(turns * deg, deg) == 0
  {
    if turns > 0 {
      WholeTurns(turns - 1, deg);
      PositionAfter((turns - 1) * deg, deg, deg);
      assert (turns - 1) * deg + deg == turns * deg;
    }
  }

  lemma SaveWordSplits(rear: nat, kind: nat)
    requires kind < MAX_TYPES
    ensures (MAX_TYPES * rear + kind) % MAX_TYPES == kind && (MAX_TYPES * rear + kind) / MAX_TYPES == rear
  {
  }

  /** Word 0 is not part of the table. */
  lemma SameWindow(t: seq<int>, t': seq<int>, f: nat, deg: nat)
    requires f < deg < |t| == |t'| && t[1..] == t'[1..]
    ensures Window(t, f, deg) == Window(t', f, deg)
  {
    forall k | 0 <= k < deg
      ensures Window(t, f, deg)[k] == Window(t', f, deg)[k]
    {
      assert t[1 + Slot(f, k, deg)] == t[1..][Slot(f, k, deg)];
      assert t'[1 + Slot(f, k, deg)] == t'[1..][Slot(f, k, deg)];
    }
  }

  lemma SeedWindow(t: seq<int>, x: int, kind: nat)
    requires 0 < kind < MAX_TYPES && |t| > Degree(kind) && t[1..1 + Degree(kind)] == SeedTable(x, Degree(kind))
    ensures Window(t, Sep(kind), Degree(kind)) == SeedRegister(x, kind)
  {
    var s, deg, sep := SeedTable(x, Degree(kind)), Degree(kind), Sep(kind);
    forall k | 0 <= k < deg
      ensures Window(t, sep, deg)[k] == SeedRegister(x, kind)[k]
    {
      assert t[1 + Slot(sep, k, deg)] == s[Slot(sep, k, deg)];
    }
  }
}
