/** The intrusive circular list (list_head.h) that the simulators queue their processes on: pointer
    writes refine operations on sequences, and touch no node outside the lists they name. */
module IntrusiveList {
  import opened Common

  ghost predicate Link(a: Node, b: Node)
    reads a, b
  {
    a.next == b && b.prev == a
  }

  ghost predicate Chain(s: seq<Node>)
    reads s
  {
    forall i :: 0 <= i < |s| - 1 ==> Link(s[i], s[i + 1])
  }

  /** The nodes of `c`, in this order, form one ring in which next and prev are inverse. */
  ghost predicate Ring(c: seq<Node>)
    reads c
  {
    && c != []
    && NoDup(c)
    && Chain(c)
    && Link(c[|c| - 1], c[0])
  }

  /** `head` is the head of a list whose entries are `s`. */
  ghost predicate IsList(head: Node, s: seq<Node>)
    reads head, s
  {
    Ring([head] + s)
  }

  class Node {
    var next: Node
    var prev: Node

    /** LIST_HEAD_INIT. */
    constructor ()
      ensures IsList(this, [])
    {
      next, prev := this, this;
    }
  }

  lemma {:induction false} SameStart(c: seq<Node>, d: seq<Node>, k: nat)
    requires Ring(c) && Ring(d) && c[0] == d[0] && k < |c| && k < |d|
    ensures c[k] == d[k]
  {
    if k > 0 {
      SameStart(c, d, k - 1);
      assert Link(c[k - 1], c[k]) && Link(d[k - 1], d[k]);
    }
  }

  lemma NotLonger(c: seq<Node>, d: seq<Node>, n: nat)
    requires Ring(c) && Ring(d) && c[0] == d[0] && 0 < n <= |c| && n <= |d| && c[n - 1] == d[n - 1]
    ensures n == |c| ==> n == |d|
  {
    if n < |d| {
      assert Link(d[n - 1], d[n]) && d[0] != d[n] && Link(c[|c| - 1], c[0]);
    }
  }

  /** A head stands for one sequence: the contracts below determine the entries and their order. */
  lemma ListIsUnique(head: Node, s: seq<Node>, t: seq<Node>)
    requires IsList(head, s) && IsList(head, t)
    ensures s == t
  {
    var c, d := [head] + s, [head] + t;
    var n := if |c| < |d| then |c| else |d|;
    SameStart(c, d, n - 1);
    assert Link(c[|c| - 1], c[0]) && Link(d[|d| - 1], d[0]);
    NotLonger(c, d, n);
    NotLonger(d, c, n);
    forall k | 0 <= k < |s|
      ensures s[k] == t[k]
    {
      SameStart(c, d, k + 1);
    }
  }

  // ---------------------------------------------------------------- queries

  method Empty(head: Node, ghost s: seq<Node>) returns (r: bool)
    requires IsList(head, s)
    ensures r <==> s == []
  {
    ghost var c := [head] + s;
    assert Link(c[|c| - 1], c[0]) && (|c| > 1 ==> Link(c[0], c[1]));
    r := head.next == head;
  }

  method IsLast(entry: Node, head: Node, ghost s: seq<Node>, ghost k: nat) returns (r: bool)
    requires IsList(head, s) && k < |s| && s[k] == entry
    ensures r <==> k == |s| - 1
  {
    ghost var c := [head] + s;
    assert c[k + 1] == entry;
    if k + 2 < |c| {
      assert Link(c[k + 1], c[k + 2]);
    }
    r := entry.next == head;
  }

  method IsSingular(head: Node, ghost s: seq<Node>) returns (r: bool)
    requires IsList(head, s)
    ensures r <==> |s| == 1
  {
    ghost var c := [head] + s;
    assert Link(c[|c| - 1], c[0]) && (|c| > 1 ==> Link(c[0], c[1]));
    r := head.next != head && head.next == head.prev;
  }

  // ---------------------------------------------------------------- one entry

  method Init(list: Node)
    modifies list
    ensures IsList(list, [])
  {
    list.next := list;
    list.prev := list;
  }

  /** __list_add, between neighbours `c[i]` and its successor. */
  method Insert(entry: Node, prev: Node, next: Node, ghost c: seq<Node>, ghost i: nat)
    requires Ring(c) && entry !in c && i < |c| && prev == c[i] && next == c[if i + 1 < |c| then i + 1 else 0]
    modifies entry, prev, next
    ensures Ring(c[..i + 1] + [entry] + c[i + 1..])
  {
    ghost var d := c[..i + 1] + [entry] + c[i + 1..];
    assert forall x :: 0 <= x <= i ==> d[x] == c[x];
    assert forall x :: i + 1 < x < |d| ==> d[x] == c[x - 1];
    assert d[i + 1] == entry && |d| == |c| + 1;
    assert Link(c[|c| - 1], c[0]);
    next.prev := entry;
    entry.next := next;
    entry.prev := prev;
    prev.next := entry;
    forall k | 0 <= k < |d| - 1
      ensures Link(d[k], d[k + 1])
    {
      if k < i {
        assert old(Link(c[k], c[k + 1])) && c[k] != prev && c[k + 1] != next && c[k] != entry && c[k + 1] != entry;
      } else if k > i + 1 {
        assert old(Link(c[k - 1], c[k])) && c[k - 1] != prev && c[k] != next && c[k - 1] != entry && c[k] != entry;
      }
    }
  }

  method AddTail(entry: Node, head: Node, ghost s: seq<Node>)
    requires IsList(head, s) && entry != head && entry !in s
    modifies entry, head, head.prev
    ensures IsList(head, s + [entry])
  {
    ghost var c := [head] + s;
    assert Link(c[|c| - 1], c[0]);
    Insert(entry, head.prev, head, c, |c| - 1);
    assert c[..|c|] + [entry] + c[|c|..] == [head] + (s + [entry]);
  }

  method Add(entry: Node, head: Node, ghost s: seq<Node>)
    requires IsList(head, s) && entry != head && entry !in s
    modifies entry, head, head.next
    ensures IsList(head, [entry] + s)
  {
    ghost var c := [head] + s;
    assert if |c| > 1 then Link(c[0], c[1]) else Link(c[0], c[0]);
    Insert(entry, head, head.next, c, 0);
    assert c[..1] + [entry] + c[1..] == [head] + ([entry] + s);
  }

  lemma Neighbours(head: Node, s: seq<Node>, k: nat)
    requires IsList(head, s) && k < |s|
    ensures s[k].prev == if k == 0 then head else s[k - 1]
    ensures s[k].next == if k + 1 < |s| then s[k + 1] else head
  {
    var c := [head] + s;
    assert Link(c[k], c[k + 1]) && (k + 2 < |c| ==> Link(c[k + 1], c[k + 2])) && Link(c[|c| - 1], c[0]);
  }

  /** __list_del: the neighbours of entry `k` get linked. */
  method Unlink(prev: Node, next: Node, ghost head: Node, ghost s: seq<Node>, ghost k: nat)
    requires IsList(head, s) && k < |s|
    requires prev == (if k == 0 then head else s[k - 1]) && next == (if k + 1 < |s| then s[k + 1] else head)
    modifies prev, next
    ensures IsList(head, Without(s, k))
  {
    ghost var c, d := [head] + s, [head] + Without(s, k);
    assert forall x :: 0 <= x <= k ==> d[x] == c[x];
    assert forall x :: k < x < |d| ==> d[x] == c[x + 1];
    assert |d| == |c| - 1 && prev == c[k] && next == c[if k + 2 < |c| then k + 2 else 0];
    assert Link(c[|c| - 1], c[0]);
    next.prev := prev;
    prev.next := next;
    forall j | 0 <= j < |d| - 1
      ensures Link(d[j], d[j + 1])
    {
      if j < k {
        assert old(Link(c[j], c[j + 1])) && c[j] != prev && c[j + 1] != next;
      } else if j > k {
        assert old(Link(c[j + 1], c[j + 2])) && c[j + 1] != prev && c[j + 2] != next;
      }
    }
    forall i, j | 0 <= i < j < |d|
      ensures d[i] != d[j]
    {
      assert c[if i <= k then i else i + 1] != c[if j <= k then j else j + 1];
    }
  }

  lemma EntryIsDistinct(head: Node, s: seq<Node>, k: nat)
    requires IsList(head, s) && k < |s|
    ensures s[k] != head && s[k] !in Without(s, k)
  {
    var c := [head] + s;
    assert c[0] != c[k + 1];
    forall j | 0 <= j < |s| && j != k
      ensures s[j] != s[k]
    {
      assert c[j + 1] != c[k + 1];
    }
  }

  /** list_del_init: the entry leaves its list and becomes a list of its own. */
  method DelInit(entry: Node, ghost head: Node, ghost s: seq<Node>, ghost k: nat)
    requires IsList(head, s) && k < |s| && s[k] == entry
    modifies entry, entry.prev, entry.next
    ensures IsList(head, Without(s, k)) && IsList(entry, [])
  {
    Neighbours(head, s, k);
    EntryIsDistinct(head, s, k);
    Unlink(entry.prev, entry.next, head, s, k);
    Init(entry);
  }

  /** No node is on both rings. */
  ghost predicate Apart(c: seq<Node>, d: seq<Node>) {
    forall x :: x in c ==> x !in d
  }

  /** Unlinking an entry of one list writes no node of another, nor does adding to the other write the first. */
  lemma LeavesOther(entry: Node, head: Node, from: Node, s: seq<Node>, k: nat, t: seq<Node>)
    requires IsList(from, s) && IsList(head, t) && k < |s| && s[k] == entry && Apart([from] + s, [head] + t)
    ensures head != entry.prev && head != entry.next && head != entry && entry !in t && entry.prev !in t
      && entry.next !in t
    ensures head !in s && head != from && head.prev != from && head.prev !in s && head.next != from && head.next !in s
  {
    var c, d := [from] + s, [head] + t;
    Neighbours(from, s, k);
    assert entry in c && entry.prev in c && entry.next in c && Apart(c, d) && (forall x :: x in t ==> x in d);
    assert head in d && Link(d[|d| - 1], d[0]) && head.prev in d;
    assert Link(d[0], d[if |d| > 1 then 1 else 0]) && head.next in d;
    assert forall x :: x in s ==> x in c;
    assert from in c;
  }

  /** list_move_tail: the entry leaves its list `from` for the tail of `head`, which may be the same list. */
  method MoveTail(entry: Node, head: Node, ghost from: Node, ghost s: seq<Node>, ghost k: nat, ghost t: seq<Node>)
    requires IsList(from, s) && IsList(head, t) && k < |s| && s[k] == entry
    requires from == head || Apart([from] + s, [head] + t)
    modifies entry, entry.prev, entry.next, head, head.prev
    ensures from == head ==> IsList(head, Without(s, k) + [entry])
    ensures from != head ==> IsList(from, Without(s, k)) && IsList(head, t + [entry])
  {
    Neighbours(from, s, k);
    EntryIsDistinct(from, s, k);
    ghost var rest := if from == head then Without(s, k) else t;
    if from != head {
      LeavesOther(entry, head, from, s, k, t);
    }
    Unlink(entry.prev, entry.next, from, s, k);
    AddTail(entry, head, rest);
  }

  /** list_move: the same to the front. */
  method Move(entry: Node, head: Node, ghost from: Node, ghost s: seq<Node>, ghost k: nat, ghost t: seq<Node>)
    requires IsList(from, s) && IsList(head, t) && k < |s| && s[k] == entry
    requires from == head || Apart([from] + s, [head] + t)
    modifies entry, entry.prev, entry.next, head, head.next
    ensures from == head ==> IsList(head, [entry] + Without(s, k))
    ensures from != head ==> IsList(from, Without(s, k)) && IsList(head, [entry] + t)
  {
    Neighbours(from, s, k);
    Neighbours(from, s, 0);
    EntryIsDistinct(from, s, k);
    assert Link(([from] + s)[0], ([from] + s)[1]);
    ghost var rest := if from == head then Without(s, k) else t;
    if from != head {
      LeavesOther(entry, head, from, s, k, t);
    }
    Unlink(entry.prev, entry.next, from, s, k);
    ghost var d := [head] + rest;
    assert from == head ==> if |d| > 1 then Link(d[0], d[1]) else Link(d[0], d[0]);
    Add(entry, head, rest);
  }

  /** list_rotate_left. */
  method RotateLeft(head: Node, ghost s: seq<Node>)
    requires IsList(head, s)
    modifies head, s
    ensures IsList(head, if s == [] then s else s[1..] + [s[0]])
  {
    var empty := Empty(head, s);
    if !empty {
      ghost var c := [head] + s;
      assert Link(c[0], c[1]) && Link(c[|c| - 1], c[0]);
      var first := head.next;
      Neighbours(head, s, 0);
      assert Without(s, 0) == s[1..];
      MoveTail(first, head, head, s, 0, s);
    }
  }

  // ---------------------------------------------------------------- cutting and splicing

  lemma Closing(h: Node, t: seq<Node>)
    requires t != [] && Chain(t) && NoDup(t) && Link(h, t[0]) && Link(t[|t| - 1], h)
    requires forall x :: 0 <= x < |t| ==> t[x] != h
    ensures IsList(h, t)
  {
    var d := [h] + t;
    forall j | 0 < j < |d| - 1
      ensures Link(d[j], d[j + 1])
    {
      assert Link(t[j - 1], t[j]);
    }
  }

  lemma TwoRings(list: Node, head: Node, s: seq<Node>, k: nat)
    requires NoDup(s) && list !in s && head !in s && 0 < k <= |s|
    requires forall j :: 0 <= j < |s| - 1 && j != k - 1 ==> Link(s[j], s[j + 1])
    requires Link(list, s[0]) && Link(s[k - 1], list)
    requires if k < |s| then Link(head, s[k]) && Link(s[|s| - 1], head) else Link(head, head)
    ensures IsList(list, s[..k]) && IsList(head, s[k..])
  {
    assert NoDup(s[..k]) && NoDup(s[k..]);
    assert Chain(s[..k]) && Chain(s[k..]);
    hide NoDup, Chain;
    Closing(list, s[..k]);
    if k < |s| {
      Closing(head, s[k..]);
    } else {
      assert s[k..] == [];
    }
  }

  lemma TailFacts(c: seq<Node>)
    requires NoDup(c) && Chain(c) && c != []
    ensures c[0] !in c[1..] && NoDup(c[1..]) && Chain(c[1..])
  {
    forall x | 0 <= x < |c| - 2
      ensures Link(c[1..][x], c[1..][x + 1])
    {
      assert Link(c[x + 1], c[x + 2]);
    }
  }

  /** What the cuts below use of the list they cut at position `k`. */
  lemma CutFacts(head: Node, s: seq<Node>, k: nat)
    requires IsList(head, s) && 0 < k <= |s|
    ensures head !in s && NoDup(s) && Chain(s)
    ensures Link(head, s[0]) && Link(s[|s| - 1], head) && Link(s[k - 1], if k < |s| then s[k] else head)
  {
    var c := [head] + s;
    assert c[1..] == s && Link(c[0], c[1]) && Link(c[|c| - 1], c[0]) && Link(c[k], c[if k < |s| then k + 1 else 0]);
    TailFacts(c);
  }

  lemma CutDistinct(s: seq<Node>, k: nat, head: Node, list: Node)
    requires NoDup(s) && 0 < k <= |s| && head !in s && list !in s
    ensures forall x :: 0 <= x < |s| ==> s[x] != head && s[x] != list
    ensures forall x :: 0 < x < |s| ==> s[x] != s[0]
    ensures forall x :: 0 <= x < |s| && x != k - 1 ==> s[x] != s[k - 1]
    ensures k < |s| ==> forall x :: 0 <= x < |s| && x != k ==> s[x] != s[k]
  {
  }

  /** __list_cut_position: the entries up to and including entry `k - 1` move to `list`. */
  method CutAfter(list: Node, head: Node, entry: Node, ghost s: seq<Node>, ghost k: nat)
    requires IsList(head, s) && 0 < k <= |s| && s[k - 1] == entry && list != head && list !in s
    modifies list, head, s
    ensures IsList(list, s[..k]) && IsList(head, s[k..])
  {
    CutFacts(head, s, k);
    CutDistinct(s, k, head, list);
    hide IsList, NoDup;
    var new_first := entry.next;
    assert new_first == (if k < |s| then s[k] else head) && new_first != s[0] && new_first != list;
    list.next := head.next;
    list.next.prev := list;
    list.prev := entry;
    entry.next := list;
    head.next := new_first;
    new_first.prev := head;
    assert Link(list, s[0]) && Link(s[k - 1], list) && Link(head, new_first);
    assert forall x :: 0 <= x < |s| && x != k - 1 ==> s[x].next == old(s[x].next);
    assert forall x :: 0 < x < |s| && x != k ==> s[x].prev == old(s[x].prev);
    forall j | 0 <= j < |s| - 1 && j != k - 1
      ensures Link(s[j], s[j + 1])
    {
      assert old(Link(s[j], s[j + 1]));
    }
    TwoRings(list, head, s, k);
  }

  /** list_cut_position; `k` is the number of entries that move, 0 when `entry` is the head itself. What
      `list` held before is lost, except that nothing at all is written when the list to cut is empty. */
  method CutPosition(list: Node, head: Node, entry: Node, ghost s: seq<Node>, ghost k: nat)
    requires IsList(head, s) && k <= |s| && entry == (if k == 0 then head else s[k - 1])
    requires list != head && list !in s
    modifies list, head, s
    ensures IsList(head, s[k..])
    ensures if s != [] then IsList(list, s[..k]) else list.next == old(list.next) && list.prev == old(list.prev)
  {
    ghost var c := [head] + s;
    assert entry == c[k] && (k > 0 ==> c[0] != c[k]) && (|s| > 0 ==> Link(c[0], c[1]));
    var empty := Empty(head, s);
    var singular := IsSingular(head, s);
    if empty || (singular && head.next != entry && head != entry) {
      return;
    }
    if entry == head {
      Init(list);
    } else {
      CutAfter(list, head, entry, s, k);
    }
  }

  /** list_cut_before: the `k` entries before `entry` move to `list`, all of them when `entry` is the head. */
  method CutBefore(list: Node, head: Node, entry: Node, ghost s: seq<Node>, ghost k: nat)
    requires IsList(head, s) && k <= |s| && entry == (if k < |s| then s[k] else head)
    requires list != head && list !in s
    modifies list, head, s
    ensures IsList(list, s[..k]) && IsList(head, s[k..])
  {
    ghost var c := [head] + s;
    assert (|c| > 1 ==> Link(c[0], c[1])) && Link(c[|c| - 1], c[0]);
    hide IsList, NoDup;
    if k > 0 {
      CutFacts(head, s, k);
      CutDistinct(s, k, head, list);
    }
    if head.next == entry {
      Init(list);
      return;
    }
    list.next := head.next;
    list.next.prev := list;
    list.prev := entry.prev;
    list.prev.next := list;
    head.next := entry;
    entry.prev := head;
    assert Link(list, s[0]) && Link(s[k - 1], list) && Link(head, entry);
    assert forall x :: 0 <= x < |s| && x != k - 1 ==> s[x].next == old(s[x].next);
    assert forall x :: 0 < x < |s| && x != k ==> s[x].prev == old(s[x].prev);
    forall j | 0 <= j < |s| - 1 && j != k - 1
      ensures Link(s[j], s[j + 1])
    {
      assert old(Link(s[j], s[j + 1]));
    }
    TwoRings(list, head, s, k);
  }

  /** The entries `a` put between position `i` of the ring `c` and its successor. */
  function Spliced<T>(c: seq<T>, i: nat, a: seq<T>): (d: seq<T>)
    requires i < |c|
    ensures |d| == |c| + |a|
    ensures forall x :: 0 <= x <= i ==> d[x] == c[x]
    ensures forall x :: i < x <= i + |a| ==> d[x] == a[x - i - 1]
    ensures forall x :: i + |a| < x < |d| ==> d[x] == c[x - |a|]
  {
    c[..i + 1] + a + c[i + 1..]
  }

  lemma SplicedDistinct(c: seq<Node>, i: nat, l: seq<Node>)
    requires i < |c| && NoDup(c) && l != [] && NoDup(l) && Apart(l, c)
    ensures NoDup(Spliced(c, i, l[1..]))
  {
    var a := l[1..];
    var d := Spliced(c, i, a);
    forall x, y | 0 <= x < y < |d|
      ensures d[x] != d[y]
    {
      var fromA := i < x <= i + |a|;
      var u := if x <= i then x else x - |a|;
      var v := if y <= i then y else y - |a|;
      if i < x <= i + |a| {
        assert d[x] == l[x - i] && d[x] in l;
        assert if y <= i + |a| then d[y] == l[y - i] else d[y] in c;
      } else {
        assert d[x] == c[u] && d[x] in c;
        assert if i < y <= i + |a| then d[y] == l[y - i] && d[y] in l else d[y] == c[v];
      }
    }
  }

  /** The seams linked, and all other links as in the rings `c` and `l`: the spliced ring. */
  lemma SplicedLinks(c: seq<Node>, i: nat, l: seq<Node>, m: nat)
    requires i < |c| && |l| > 1 && m == (if i + 1 < |c| then i + 1 else 0)
    requires Link(c[i], l[1]) && Link(l[|l| - 1], c[m])
    requires forall j :: 0 <= j < |c| - 1 && j != i ==> Link(c[j], c[j + 1])
    requires m != 0 ==> Link(c[|c| - 1], c[0])
    requires forall j :: 1 <= j < |l| - 1 ==> Link(l[j], l[j + 1])
    requires NoDup(Spliced(c, i, l[1..]))
    ensures Ring(Spliced(c, i, l[1..]))
  {
    var n, d := |l| - 1, Spliced(c, i, l[1..]);
    forall j | 0 <= j < |d| - 1
      ensures Link(d[j], d[j + 1])
    {
      hide Spliced, NoDup;
      if j < i {
        assert Link(c[j], c[j + 1]);
      } else if i < j < i + n {
        assert d[j] == l[j - i] && d[j + 1] == l[j - i + 1] && Link(l[j - i], l[j - i + 1]);
      } else if j > i + n {
        assert Link(c[j - n], c[j - n + 1]);
      }
    }
  }

  lemma SeamsDistinct(c: seq<Node>, i: nat, l: seq<Node>, m: nat)
    requires NoDup(c) && NoDup(l) && Apart(l, c) && i < |c| && m < |c| && |l| > 1
    ensures forall x :: 0 <= x < |c| ==> c[x] != l[1] && c[x] != l[|l| - 1]
    ensures forall x :: 0 <= x < |l| ==> l[x] != c[i] && l[x] != c[m]
    ensures forall x :: 0 <= x < |c| ==> (x != i ==> c[x] != c[i]) && (x != m ==> c[x] != c[m])
    ensures forall x :: 0 <= x < |l| ==> (x != 1 ==> l[x] != l[1]) && (x != |l| - 1 ==> l[x] != l[|l| - 1])
  {
    assert forall x :: 0 <= x < |l| ==> l[x] in l && l[x] !in c;
    assert forall x :: 0 <= x < |c| ==> c[x] in c && c[x] !in l;
  }

  /** __list_splice: the entries `a` of `list` go between neighbours `c[i]` and its successor. */
  method SpliceBetween(list: Node, prev: Node, next: Node, ghost a: seq<Node>, ghost c: seq<Node>, ghost i: nat)
    requires IsList(list, a) && a != [] && Ring(c) && i < |c| && Apart([list] + a, c)
    requires prev == c[i] && next == c[if i + 1 < |c| then i + 1 else 0]
    modifies a, prev, next
    ensures Ring(Spliced(c, i, a))
  {
    ghost var l, n, m := [list] + a, |a|, if i + 1 < |c| then i + 1 else 0;
    assert l[1..] == a && l[1] == a[0] && l[n] == a[n - 1];
    SplicedDistinct(c, i, l);
    SeamsDistinct(c, i, l, m);
    assert Link(l[0], l[1]) && Link(l[n], l[0]) && Link(c[|c| - 1], c[0]);
    assert Chain(c) && Chain(l);
    hide Spliced, NoDup, Apart, Ring;
    var first := list.next;
    var last := list.prev;
    first.prev := prev;
    prev.next := first;
    last.next := next;
    next.prev := last;
    forall j | 0 <= j < |c| - 1 && j != i
      ensures Link(c[j], c[j + 1])
    {
      assert old(Link(c[j], c[j + 1]));
    }
    forall j | 1 <= j < |l| - 1
      ensures Link(l[j], l[j + 1])
    {
      assert old(Link(l[j], l[j + 1]));
    }
    SplicedLinks(c, i, l, m);
  }

  /** list_splice; `list` itself still points at its former entries. */
  method Splice(list: Node, head: Node, ghost a: seq<Node>, ghost s: seq<Node>)
    requires IsList(list, a) && IsList(head, s) && Apart([list] + a, [head] + s)
    modifies a, head, head.next
    ensures IsList(head, a + s)
  {
    ghost var c := [head] + s;
    assert Link(c[0], c[if |c| > 1 then 1 else 0]) && Spliced(c, 0, a) == [head] + (a + s);
    hide NoDup, Apart, Spliced;
    var empty := Empty(list, a);
    if !empty {
      SpliceBetween(list, head, head.next, a, c, 0);
    } else {
      assert a + s == s;
    }
  }

  /** list_splice_tail. */
  method SpliceTail(list: Node, head: Node, ghost a: seq<Node>, ghost s: seq<Node>)
    requires IsList(list, a) && IsList(head, s) && Apart([list] + a, [head] + s)
    modifies a, head, head.prev
    ensures IsList(head, s + a)
  {
    ghost var c := [head] + s;
    assert Link(c[|c| - 1], c[0]) && Spliced(c, |c| - 1, a) == [head] + (s + a);
    hide NoDup, Apart, Spliced;
    var empty := Empty(list, a);
    if !empty {
      SpliceBetween(list, head.prev, head, a, c, |c| - 1);
    } else {
      assert s + a == s;
    }
  }

  lemma SplicedApart(list: Node, head: Node, a: seq<Node>, s: seq<Node>)
    requires IsList(list, a) && Apart([list] + a, [head] + s)
    ensures list != head && list !in a && list !in s
  {
    var l, c := [list] + a, [head] + s;
    assert l[0] in l && c[0] in c && (forall x :: x in s ==> x in c);
    assert forall j :: 0 <= j < |a| ==> a[j] == l[j + 1] && l[0] != l[j + 1];
  }

  /** list_splice_init. */
  method SpliceInit(list: Node, head: Node, ghost a: seq<Node>, ghost s: seq<Node>)
    requires IsList(list, a) && IsList(head, s) && Apart([list] + a, [head] + s)
    modifies list, a, head, head.next
    ensures IsList(head, a + s) && IsList(list, [])
  {
    SplicedApart(list, head, a, s);
    var empty := Empty(list, a);
    if !empty {
      Splice(list, head, a, s);
      Init(list);
    } else {
      assert [] + s == s;
    }
  }

  /** list_splice_tail_init. */
  method SpliceTailInit(list: Node, head: Node, ghost a: seq<Node>, ghost s: seq<Node>)
    requires IsList(list, a) && IsList(head, s) && Apart([list] + a, [head] + s)
    modifies list, a, head, head.prev
    ensures IsList(head, s + a) && IsList(list, [])
  {
    SplicedApart(list, head, a, s);
    var empty := Empty(list, a);
    if !empty {
      SpliceTail(list, head, a, s);
      Init(list);
    } else {
      assert s + [] == s;
    }
  }
}
