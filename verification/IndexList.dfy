/** Singly linked lists threaded through an array of successor indices. */
module IndexList {
  const NULL := -1

  ghost predicate NoDup<T>(s: seq<T>) {
    forall i, j :: 0 <= i < j < |s| ==> s[i] != s[j]
  }

  /** Following `next` from `head` visits exactly the indices of `s`, in order. */
  ghost predicate IsList(next: seq<int>, head: int, s: seq<int>) {
    && NoDup(s)
    && head == At(s, 0)
    && (forall k :: 0 <= k < |s| ==> 0 <= s[k] < |next|)
    && (forall k {:trigger next[s[k]]} :: 0 <= k < |s| ==> next[s[k]] == At(s, k + 1))
  }

  ghost function At(s: seq<int>, k: nat): int {
    if k < |s| then s[k] else NULL
  }

  ghost function Without(s: seq<int>, i: nat): seq<int>
    requires i < |s|
  {
    s[..i] + s[i + 1..]
  }

  lemma WithoutMembers(s: seq<int>, i: nat)
    requires i < |s| && NoDup(s)
    ensures NoDup(Without(s, i))
    ensures forall x :: x in Without(s, i) <==> x in s && x != s[i]
  {
    var r := Without(s, i);
    forall x | x in s && x != s[i]
      ensures x in r
    {
      var k :| 0 <= k < |s| && s[k] == x;
      assert r[if k < i then k else k - 1] == x;
    }
  }

  lemma PushFront(next: seq<int>, head: int, s: seq<int>, p: int)
    requires IsList(next, head, s) && 0 <= p < |next| && p !in s
    ensures IsList(next[p := head], p, [p] + s)
  {
    var s' := [p] + s;
    forall k | 0 <= k < |s'|
      ensures 0 <= s'[k] < |next| && next[p := head][s'[k]] == At(s', k + 1)
    {
      if k > 0 {
        assert s'[k] == s[k - 1];
      }
    }
  }

  lemma Untouched(next: seq<int>, head: int, s: seq<int>, p: int, x: int)
    requires IsList(next, head, s) && 0 <= p < |next| && p !in s
    ensures IsList(next[p := x], head, s)
  {
  }

  ghost function With<T>(s: seq<T>, i: nat, n: T): seq<T>
    requires i <= |s|
  {
    s[..i] + [n] + s[i..]
  }

  lemma WithMembers(s: seq<int>, i: nat, n: int)
    requires i <= |s|
    ensures |With(s, i, n)| == |s| + 1
    ensures forall k :: 0 <= k <= |s| ==> With(s, i, n)[k] == if k < i then s[k] else if k == i then n else s[k - 1]
    ensures forall x :: x in With(s, i, n) <==> x in s || x == n
  {
    var r := With(s, i, n);
    forall x | x in s
      ensures x in r
    {
      var k :| 0 <= k < |s| && s[k] == x;
      assert r[if k < i then k else k + 1] == x;
    }
  }

  lemma WithNoDup(s: seq<int>, i: nat, n: int)
    requires NoDup(s) && i <= |s| && n !in s
    ensures NoDup(With(s, i, n))
  {
    var r := With(s, i, n);
    WithMembers(s, i, n);
    forall j, k | 0 <= j < k < |r|
      ensures r[j] != r[k]
    {
      if j != i && k != i {
        assert s[if j < i then j else j - 1] != s[if k < i then k else k - 1];
      }
    }
  }

  lemma Link(next: seq<int>, head: int, s: seq<int>, i: nat, n: int)
    requires IsList(next, head, s) && 0 < i <= |s| && 0 <= n < |next| && n !in s
    ensures IsList(next[n := At(s, i)][s[i - 1] := n], head, With(s, i, n))
  {
    var r, next' := With(s, i, n), next[n := At(s, i)][s[i - 1] := n];
    WithMembers(s, i, n);
    WithNoDup(s, i, n);
    forall k | 0 <= k < |r|
      ensures 0 <= r[k] < |next'| && next'[r[k]] == At(r, k + 1)
    {
      LinkAt(next, head, s, i, n, k);
    }
  }

  lemma LinkAt(next: seq<int>, head: int, s: seq<int>, i: nat, n: int, k: nat)
    requires IsList(next, head, s) && 0 < i <= |s| && 0 <= n < |next| && n !in s && k <= |s|
    ensures var r, next' := With(s, i, n), next[n := At(s, i)][s[i - 1] := n];
            |r| == |s| + 1 && 0 <= r[k] < |next'| && next'[r[k]] == At(r, k + 1)
  {
    WithMembers(s, i, n);
    if k < i - 1 {
      assert next[s[k]] == At(s, k + 1) && s[k] != s[i - 1];
    } else if k > i {
      assert next[s[k - 1]] == At(s, k) && s[k - 1] != s[i - 1];
    }
  }

  lemma Unlink(next: seq<int>, head: int, s: seq<int>, i: nat)
    requires IsList(next, head, s) && i < |s|
    ensures i == 0 ==> IsList(next, next[s[0]], Without(s, i))
    ensures i > 0 ==> IsList(next[s[i - 1] := next[s[i]]], head, Without(s, i))
  {
    var r := Without(s, i);
    WithoutMembers(s, i);
    var next' := if i == 0 then next else next[s[i - 1] := next[s[i]]];
    forall k | 0 <= k < |r|
      ensures 0 <= r[k] < |next| && next'[r[k]] == At(r, k + 1)
    {
      var k' := if k < i then k else k + 1;
      assert r[k] == s[k'] && next[s[k']] == At(s, k' + 1);
    }
  }
}
