/**
 The cat and mouse bowls (os161-1.11/kern/asst1/bowls.c) under every interleaving.  Each
 thread in cat_eat or mouse_eat is somewhere in its code; a step runs one statement of one
 thread.  P(mutex) is a step only while the mutex is free, as semaphores guarantee.
 */
module Bowls {
  datatype Kind = Cat | Mouse

  /** The statement an animal's thread executes next; `holds` where it is inside a critical section. */
  datatype Place =
    | WantIn
    | Checking
    | Marking
    | Leaving1
    | Eating
    | Uncounting
    | Clearing
    | Leaving2

  datatype Animal = Animal(kind: Kind, bowl: int, at: Place)

  type Tid = nat

  function Letter(k: Kind): char { if k == Cat then 'c' else 'm' }

  predicate Holds(p: Place) {
    p == Checking || p == Marking || p == Leaving1 || p == Uncounting || p == Clearing || p == Leaving2
  }

  /** The animal's mark is in its bowl. */
  predicate Owns(p: Place) {
    p == Leaving1 || p == Eating || p == Uncounting || p == Clearing
  }

  const SIGN_BIT := 0x8000_0000

  /** The argument check, which looks at an unsigned bowl number as a signed one. */
  predicate Rejected(bowl: nat, n: nat) {
    bowl == 0 || (if bowl < SIGN_BIT then bowl as int else bowl - 2 * SIGN_BIT) > n
  }

  /** The check is exact for bowl numbers below 2^31; every larger one slips through it. */
  lemma ArgumentCheck(bowl: nat, n: nat)
    requires bowl < 2 * SIGN_BIT
    ensures !Rejected(bowl, n) <==> (1 <= bowl <= n && bowl < SIGN_BIT) || bowl >= SIGN_BIT
  {
  }

  /** However many bowls there are, 2^31 passes for one of them. */
  lemma TooLargeAccepted(n: nat)
    ensures !Rejected(SIGN_BIT, n)
  {
  }

  function Count(s: seq<char>, c: char): nat {
    if s == [] then 0 else (if s[0] == c then 1 else 0) + Count(s[1..], c)
  }

  lemma {:induction false} CountUpdate(s: seq<char>, i: nat, x: char, c: char)
    requires i < |s|
    ensures Count(s[i := x], c) == Count(s, c) - (if s[i] == c then 1 else 0) + (if x == c then 1 else 0)
  {
    if i == 0 {
      assert s[i := x][1..] == s[1..];
    } else {
      assert s[i := x][1..] == s[1..][i - 1 := x];
      CountUpdate(s[1..], i - 1, x, c);
    }
  }

  lemma {:induction false} CountPositive(s: seq<char>, c: char)
    ensures Count(s, c) > 0 <==> c in s
  {
    if s != [] {
      CountPositive(s[1..], c);
      assert s == [s[0]] + s[1..];
    }
  }

  /** What the running critical section has done to a counter ahead of or behind the bowls. */
  function Skew(holder: Animal, k: Kind): int {
    if holder.kind != k then 0
    else if holder.at == Marking then 1
    else if holder.at == Clearing then -1
    else 0
  }

  ghost predicate BowlsOk(bowls: seq<char>, animals: map<Tid, Animal>) {
    && (forall i :: 0 <= i < |bowls| ==> bowls[i] == '-' || bowls[i] == 'c' || bowls[i] == 'm')
    && (forall t :: t in animals ==> 1 <= animals[t].bowl <= |bowls|)
  }

  /** Mutual exclusion: holder is the only thread inside a critical section, or -1. */
  ghost predicate MutexOk(mutex: int, holder: int, animals: map<Tid, Animal>) {
    && (forall t :: t in animals ==> (Holds(animals[t].at) <==> t == holder))
    && (holder == -1 || holder in animals)
    && mutex == (if holder == -1 then 1 else 0)
  }

  /** The counters are the numbers of marked bowls, and one of them is zero. */
  ghost predicate CountersOk(bowls: seq<char>, cats: int, mice: int, holder: int, animals: map<Tid, Animal>) {
    && cats == Count(bowls, 'c') + Lead(holder, animals, Cat)
    && mice == Count(bowls, 'm') + Lead(holder, animals, Mouse)
    && (cats == 0 || mice == 0) && 0 <= cats && 0 <= mice
    && (Count(bowls, 'c') == 0 || Count(bowls, 'm') == 0)
  }

  /** Every eating animal's mark is in its bowl, and owner says whose bowl it is. */
  ghost predicate OwnersOk(bowls: seq<char>, animals: map<Tid, Animal>, owner: map<int, Tid>)
    requires BowlsOk(bowls, animals)
  {
    && (forall t :: t in animals && Owns(animals[t].at) ==>
          && bowls[animals[t].bowl - 1] == Letter(animals[t].kind)
          && animals[t].bowl in owner && owner[animals[t].bowl] == t)
    && (forall t :: t in animals && animals[t].at == Marking ==> bowls[animals[t].bowl - 1] == '-')
  }

  ghost function Lead(holder: int, animals: map<Tid, Animal>, k: Kind): int {
    if holder >= 0 && holder in animals then Skew(animals[holder], k) else 0
  }

  /** Somebody new outside the critical sections disturbs nothing. */
  lemma ArrivalKeeps(bowls: seq<char>, cats: int, mice: int, mutex: int, holder: int, animals: map<Tid, Animal>, owner: map<int, Tid>,
                     t: Tid, a: Animal)
    requires BowlsOk(bowls, animals) && MutexOk(mutex, holder, animals) && CountersOk(bowls, cats, mice, holder, animals)
    requires OwnersOk(bowls, animals, owner) && t !in animals && a.at == WantIn && 1 <= a.bowl <= |bowls|
    ensures var animals' := animals[t := a];
            && BowlsOk(bowls, animals') && MutexOk(mutex, holder, animals') && CountersOk(bowls, cats, mice, holder, animals')
            && OwnersOk(bowls, animals', owner)
  {
  }

  /** The monitor's variables and where each thread is. */
  datatype State = State(bowls: seq<char>, cats: int, mice: int, mutex: int, animals: map<Tid, Animal>, panicked: bool)

  /** An animal in its critical section finds a rule of the house broken. */
  predicate RuleBroken(s: State, a: Animal)
    requires 1 <= a.bowl <= |s.bowls|
  {
    s.bowls[a.bowl - 1] == Letter(a.kind) || (if a.kind == Cat then s.mice > 0 else s.cats > 0)
  }

  function Counted(s: State, k: Kind, delta: int): State {
    if k == Cat then s.(cats := s.cats + delta) else s.(mice := s.mice + delta)
  }

  function Moved(s: State, t: Tid, place: Place): State
    requires t in s.animals
  {
    s.(animals := s.animals[t := s.animals[t].(at := place)])
  }

  /** The next statement of thread t; it waits at P while the mutex is taken. */
  function Stepped(s: State, t: Tid): State {
    if t !in s.animals || !(1 <= s.animals[t].bowl <= |s.bowls|) then s
    else
      var a := s.animals[t];
      match a.at
      case WantIn => if s.mutex > 0 then Moved(s.(mutex := s.mutex - 1), t, Checking) else s
      case Checking => if RuleBroken(s, a) then s.(panicked := true) else Moved(Counted(s, a.kind, 1), t, Marking)
      case Marking => Moved(s.(bowls := s.bowls[a.bowl - 1 := Letter(a.kind)]), t, Leaving1)
      case Leaving1 => Moved(s.(mutex := s.mutex + 1), t, Eating)
      case Eating => if s.mutex > 0 then Moved(s.(mutex := s.mutex - 1), t, Uncounting) else s
      case Uncounting => Moved(Counted(s, a.kind, -1), t, Clearing)
      case Clearing => Moved(s.(bowls := s.bowls[a.bowl - 1 := '-']), t, Leaving2)
      case Leaving2 => s.(mutex := s.mutex + 1, animals := s.animals - {t})
  }

  function Happened(s: State, e: Event): State {
    match e
    case Arrive(t, k, bowl) =>
      if t in s.animals then s
      else if Rejected(bowl, |s.bowls|) then s.(panicked := true)
      else s.(animals := s.animals[t := Animal(k, bowl, WantIn)])
    case Advance(t) => Stepped(s, t)
  }

  /** Any interleaving, up to a panic. */
  function Played(s: State, script: seq<Event>): State
    decreases |script|
  {
    if script == [] then s
    else
      var n := |script| - 1;
      var s1 := Played(s, script[..n]);
      if s1.panicked then s1 else Happened(s1, script[n])
  }

  lemma {:induction false} PlayedOut(s: State, script: seq<Event>, i: nat)
    requires i <= |script| && (i == |script| || Played(s, script[..i]).panicked)
    ensures Played(s, script[..i]) == Played(s, script)
    decreases |script| - i
  {
    if i == |script| {
      assert script[..i] == script;
    } else {
      assert script[..i + 1][..i] == script[..i];
      PlayedOut(s, script, i + 1);
    }
  }

  /** Four statements of thread t and nobody else. */
  function FourSteps(s: State, t: Tid): State {
    Stepped(Stepped(Stepped(Stepped(s, t), t), t), t)
  }

  /** The thread wants in, nothing forbids it, and nobody is in a critical section. */
  predicate Welcome(s: State, t: Tid) {
    && t in s.animals && s.animals[t].at == WantIn && 1 <= s.animals[t].bowl <= |s.bowls|
    && s.mutex == 1 && !RuleBroken(s, s.animals[t])
  }

  /** A visit that nobody disturbs: it takes four statements to be eating, marked and counted ... */
  lemma GoesIn(s: State, t: Tid)
    requires Welcome(s, t)
    ensures var a := s.animals[t];
            FourSteps(s, t) == Moved(Counted(s.(bowls := s.bowls[a.bowl - 1 := Letter(a.kind)]), a.kind, 1), t, Eating)
  {
    var a := s.animals[t];
    var s2 := Stepped(Stepped(s, t), t);
    assert s2.animals == s.animals[t := a.(at := Marking)];
    var s4 := Stepped(Stepped(s2, t), t);
    assert s4.animals == s.animals[t := a.(at := Eating)];
  }

  lemma GoesOut(s: State, t: Tid)
    requires t in s.animals && s.animals[t].at == Eating && 1 <= s.animals[t].bowl <= |s.bowls| && s.mutex == 1
    ensures var a := s.animals[t];
            FourSteps(s, t) == Counted(s.(bowls := s.bowls[a.bowl - 1 := '-'], animals := s.animals - {t}), a.kind, -1)
  {
    var a := s.animals[t];
    var s2 := Stepped(Stepped(s, t), t);
    assert s2.animals == s.animals[t := a.(at := Clearing)];
    var s4 := Stepped(Stepped(s2, t), t);
    assert s4.animals == s.animals - {t};
  }

  /** ... and four more to be gone and leave everything as it was, if the bowl was empty. */
  lemma VisitRestores(s: State, t: Tid)
    requires Welcome(s, t) && s.bowls[s.animals[t].bowl - 1] == '-'
    ensures FourSteps(FourSteps(s, t), t) == s.(animals := s.animals - {t})
  {
    GoesIn(s, t);
    GoesOut(FourSteps(s, t), t);
    assert s.animals[t := s.animals[t].(at := Eating)] - {t} == s.animals - {t};
  }

  /** What holds between any two statements: holder is inside a critical section, or -1; owner has the marked bowls' animals. */
  ghost predicate Sound(s: State, holder: int, owner: map<int, Tid>) {
    && BowlsOk(s.bowls, s.animals) && MutexOk(s.mutex, holder, s.animals)
    && CountersOk(s.bowls, s.cats, s.mice, holder, s.animals) && OwnersOk(s.bowls, s.animals, owner)
  }

  lemma AcquireKeeps(s: State, holder: int, owner: map<int, Tid>, t: Tid)
    requires Sound(s, holder, owner) && t in s.animals && (s.animals[t].at == WantIn || s.animals[t].at == Eating) && s.mutex > 0
    ensures Sound(Stepped(s, t), t, owner)
  {
  }

  /** The rules checked, the source's assertions hold: the bowl is empty and nobody of the other kind is eating. */
  lemma CheckInKeeps(s: State, holder: int, owner: map<int, Tid>, t: Tid)
    requires Sound(s, holder, owner) && t in s.animals && s.animals[t].at == Checking && !RuleBroken(s, s.animals[t])
    ensures s.bowls[s.animals[t].bowl - 1] == '-' && (if s.animals[t].kind == Cat then s.mice == 0 else s.cats == 0)
    ensures Sound(Stepped(s, t), holder, owner)
  {
    CountPositive(s.bowls, 'c');
    CountPositive(s.bowls, 'm');
  }

  lemma MarkKeeps(s: State, holder: int, owner: map<int, Tid>, t: Tid)
    requires Sound(s, holder, owner) && t in s.animals && s.animals[t].at == Marking
    ensures Sound(Stepped(s, t), holder, owner[s.animals[t].bowl := t])
  {
    var a := s.animals[t];
    CountUpdate(s.bowls, a.bowl - 1, Letter(a.kind), 'c');
    CountUpdate(s.bowls, a.bowl - 1, Letter(a.kind), 'm');
  }

  lemma ReleaseKeeps(s: State, holder: int, owner: map<int, Tid>, t: Tid)
    requires Sound(s, holder, owner) && t in s.animals && (s.animals[t].at == Leaving1 || s.animals[t].at == Leaving2)
    ensures Sound(Stepped(s, t), -1, owner)
  {
  }

  /** On the way out the source's assertions hold: the bowl is marked and the counter of the kind is not zero. */
  lemma UncountKeeps(s: State, holder: int, owner: map<int, Tid>, t: Tid)
    requires Sound(s, holder, owner) && t in s.animals && s.animals[t].at == Uncounting
    ensures s.bowls[s.animals[t].bowl - 1] == Letter(s.animals[t].kind) && (if s.animals[t].kind == Cat then s.cats > 0 else s.mice > 0)
    ensures Sound(Stepped(s, t), holder, owner)
  {
    CountPositive(s.bowls, Letter(s.animals[t].kind));
  }

  lemma ClearKeeps(s: State, holder: int, owner: map<int, Tid>, t: Tid)
    requires Sound(s, holder, owner) && t in s.animals && s.animals[t].at == Clearing
    ensures Sound(Stepped(s, t), holder, owner)
  {
    var a := s.animals[t];
    CountUpdate(s.bowls, a.bowl - 1, '-', 'c');
    CountUpdate(s.bowls, a.bowl - 1, '-', 'm');
  }

  class Monitor {
    const bowls: array<char>
    var cats: int
    var mice: int
    var mutex: int
    var animals: map<Tid, Animal>
    var panicked: bool
    ghost var holder: int
    ghost var owner: map<int, Tid>

    ghost function View(): State
      reads this, bowls
    {
      State(bowls[..], cats, mice, mutex, animals, panicked)
    }

    ghost predicate Valid()
      reads this, bowls
    {
      bowls.Length < SIGN_BIT && Sound(View(), holder, owner)
    }

    /** initialize_bowls, for a bowl count it accepts and can find memory for. */
    constructor (n: nat)
      requires 0 < n < SIGN_BIT
      ensures Valid() && !panicked && animals == map[] && bowls.Length == n && fresh(bowls)
    {
      bowls := new char[n](_ => '-');
      cats, mice, mutex := 0, 0, 1;
      animals, panicked, holder, owner := map[], false, -1, map[];
      new;
      CountPositive(bowls[..], 'c');
      CountPositive(bowls[..], 'm');
    }

    /**
     A thread calls cat_eat or mouse_eat, which first checks its argument.  It panics exactly for a
     number out of range, but for those from 2^31 up, which it lets in: then all is lost.
     */
    method Call(t: Tid, k: Kind, bowl: nat)
      requires Valid() && !panicked && t !in animals && bowl < 2 * SIGN_BIT
      modifies this`animals, this`panicked
      ensures panicked <==> !(1 <= bowl <= bowls.Length) && bowl < SIGN_BIT
      ensures Valid() <==> bowl < SIGN_BIT
      ensures animals == if panicked then old(animals) else old(animals)[t := Animal(k, bowl, WantIn)]
    {
      if Rejected(bowl, bowls.Length) {
        panicked := true;
        return;
      }
      if bowl <= bowls.Length {
        ArrivalKeeps(bowls[..], cats, mice, mutex, holder, animals, owner, t, Animal(k, bowl, WantIn));
      }
      animals := animals[t := Animal(k, bowl, WantIn)];
      assert t in animals && animals[t].bowl == bowl;
    }

    /** P(mutex), the first time or the second. */
    method Acquire(t: Tid)
      requires Valid() && t in animals && (animals[t].at == WantIn || animals[t].at == Eating) && mutex > 0
      modifies this`mutex, this`animals, this`holder
      ensures Valid() && View() == Stepped(old(View()), t)
    {
      AcquireKeeps(View(), holder, owner, t);
      mutex := mutex - 1;
      animals := animals[t := animals[t].(at := if animals[t].at == WantIn then Checking else Uncounting)];
      holder := t;
    }

    /** The checks, and the counter; a violated rule panics, a failed assertion cannot happen. */
    method CheckIn(t: Tid)
      requires Valid() && !panicked && t in animals && animals[t].at == Checking
      modifies this`cats, this`mice, this`animals, this`panicked
      ensures Valid()
      ensures panicked <==> bowls[animals[t].bowl - 1] == Letter(animals[t].kind)
                            || (if animals[t].kind == Cat then old(mice) > 0 else old(cats) > 0)
      ensures View() == Stepped(old(View()), t)
    {
      var a := animals[t];
      var i := a.bowl - 1;
      if bowls[i] == Letter(a.kind) || (if a.kind == Cat then mice > 0 else cats > 0) {
        panicked := true;
        return;
      }
      CheckInKeeps(View(), holder, owner, t);
      assert bowls[i] == '-' && (if a.kind == Cat then mice == 0 else cats == 0);
      if a.kind == Cat {
        cats := cats + 1;
      } else {
        mice := mice + 1;
      }
      animals := animals[t := a.(at := Marking)];
    }

    method Mark(t: Tid)
      requires Valid() && t in animals && animals[t].at == Marking
      modifies this`animals, this`owner, bowls
      ensures Valid() && View() == Stepped(old(View()), t)
    {
      var a := animals[t];
      MarkKeeps(View(), holder, owner, t);
      bowls[a.bowl - 1] := Letter(a.kind);
      assert bowls[..] == old(bowls[..])[a.bowl - 1 := Letter(a.kind)];
      animals, owner := animals[t := a.(at := Leaving1)], owner[a.bowl := t];
    }

    /** V(mutex): on to eating, or out of the function. */
    method Release(t: Tid)
      requires Valid() && t in animals && (animals[t].at == Leaving1 || animals[t].at == Leaving2)
      modifies this`mutex, this`animals, this`holder
      ensures Valid() && View() == Stepped(old(View()), t)
    {
      ReleaseKeeps(View(), holder, owner, t);
      mutex := mutex + 1;
      animals := if animals[t].at == Leaving1 then animals[t := animals[t].(at := Eating)] else animals - {t};
      holder := -1;
    }

    /** Done eating: the assertions of cat_eat and mouse_eat on the way out, and the counter. */
    method Uncount(t: Tid)
      requires Valid() && t in animals && animals[t].at == Uncounting
      modifies this`cats, this`mice, this`animals
      ensures Valid() && View() == Stepped(old(View()), t)
    {
      var a := animals[t];
      UncountKeeps(View(), holder, owner, t);
      assert bowls[a.bowl - 1] == Letter(a.kind) && (if a.kind == Cat then cats > 0 else mice > 0);
      if a.kind == Cat {
        cats := cats - 1;
      } else {
        mice := mice - 1;
      }
      animals := animals[t := a.(at := Clearing)];
    }

    method Clear(t: Tid)
      requires Valid() && t in animals && animals[t].at == Clearing
      modifies this`animals, bowls
      ensures Valid() && View() == Stepped(old(View()), t)
    {
      var a := animals[t];
      ClearKeeps(View(), holder, owner, t);
      bowls[a.bowl - 1] := '-';
      assert bowls[..] == old(bowls[..])[a.bowl - 1 := '-'];
      animals := animals[t := a.(at := Leaving2)];
    }

    /** The next statement of thread t, if it can run now. */
    method Tick(t: Tid)
      requires Valid() && !panicked
      modifies this, bowls
      ensures Valid() && View() == Stepped(old(View()), t)
    {
      if t !in animals {
        return;
      }
      match animals[t].at {
        case WantIn => if mutex > 0 { Acquire(t); }
        case Eating => if mutex > 0 { Acquire(t); }
        case Checking => CheckIn(t);
        case Marking => Mark(t);
        case Leaving1 => Release(t);
        case Leaving2 => Release(t);
        case Uncounting => Uncount(t);
        case Clearing => Clear(t);
      }
    }

    /** One event; true means a bowl number that should have been refused. */
    method Happen(e: Event) returns (wild: bool)
      requires Valid() && !panicked && (e.Arrive? ==> e.bowl < 2 * SIGN_BIT)
      modifies this, bowls
      ensures Valid() <==> !wild
      ensures View() == Happened(old(View()), e)
      ensures wild <==> e.Arrive? && e.t !in old(animals) && e.bowl >= SIGN_BIT
    {
      wild := false;
      match e {
        case Arrive(t, k, bowl) =>
          if t !in animals {
            Call(t, k, bowl);
            wild := bowl >= SIGN_BIT;
          }
        case Advance(t) => Tick(t);
      }
    }

    /** Any interleaving, up to a panic or a bowl number that should have caused one. */
    method Run(script: seq<Event>) returns (wild: bool)
      requires Valid() && !panicked && forall i :: 0 <= i < |script| && script[i].Arrive? ==> script[i].bowl < 2 * SIGN_BIT
      modifies this, bowls
      ensures Valid() <==> !wild
      ensures !wild && mutex == 1 ==> cats == Count(bowls[..], 'c') && mice == Count(bowls[..], 'm')
      ensures !wild ==> View() == Played(old(View()), script)
      ensures wild ==> exists i :: 0 <= i < |script| && script[i].Arrive? && script[i].bowl >= SIGN_BIT
    {
      wild := false;
      var i := 0;
      while i < |script| && !panicked
        invariant 0 <= i <= |script| && Valid() && View() == Played(old(View()), script[..i])
        decreases |script| - i
      {
        assert script[..i + 1][..i] == script[..i];
        wild := Happen(script[i]);
        if wild {
          return;
        }
        i := i + 1;
      }
      PlayedOut(old(View()), script, i);
    }
  }

  datatype Event = Arrive(t: Tid, k: Kind, bowl: nat) | Advance(t: Tid)

  /** Cats and mice never eat at the same time, and no two animals eat from one bowl. */
  lemma NeverTogether(bowls: seq<char>, cats: int, mice: int, holder: int, animals: map<Tid, Animal>, owner: map<int, Tid>,
                      t: Tid, u: Tid)
    requires BowlsOk(bowls, animals) && CountersOk(bowls, cats, mice, holder, animals) && OwnersOk(bowls, animals, owner)
    requires t in animals && u in animals && animals[t].at == animals[u].at == Eating
    ensures animals[t].kind == animals[u].kind
    ensures t != u ==> animals[t].bowl != animals[u].bowl
  {
    CountPositive(bowls, 'c');
    CountPositive(bowls, 'm');
  }

  /** Neither counter can say that cats and mice are eating together. */
  lemma CountersExclude(bowls: seq<char>, cats: int, mice: int, holder: int, animals: map<Tid, Animal>)
    requires BowlsOk(bowls, animals) && CountersOk(bowls, cats, mice, holder, animals)
    ensures !('c' in bowls && 'm' in bowls) && (cats > 0 ==> mice == 0)
  {
    CountPositive(bowls, 'c');
    CountPositive(bowls, 'm');
  }
}
