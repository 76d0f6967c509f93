/** The stack of elements a channel is built from: `chainStack` links the
    elements and fills in forwarding defaults (xdm.js:370-407), and
    `removeFromStack` unlinks one element while keeping its neighbours
    connected (xdm.js:415-419). Elements are identified by their position in
    the list handed to `chainStack`; the `up` and `down` links are positions. */
module Stack {
  import opened Wrappers
  import opened Values

  /** The operations every element answers to. */
  const OpNames: seq<string> := ["incoming", "outgoing", "callback", "init", "destroy"]

  /** The forwarding defaults: each passes the call on to the element above
      (`incoming`, `callback`) or below (`outgoing`, `init`, `destroy`). The
      function identities 0 to 4 stand for these five functions. */
  const Defaults: Value := Obj([("incoming", Fn(0)), ("outgoing", Fn(1)), ("callback", Fn(2)),
                                ("init", Fn(3)), ("destroy", Fn(4))], None)

  /** No operation name is one every object inherits, so `merge` never takes
      an operation for an inherited member. */
  lemma OpNamesNotInherited()
    ensures forall i :: 0 <= i < |OpNames| ==> OpNames[i] !in ObjectPrototypeNames
  {
  }

  /** The defaults are five distinct names bound to functions, none of them
      object-typed, so merging them never recurses. */
  lemma DefaultsAreFlat()
    ensures Flat(Defaults) && UniqueKeys(Defaults.fields)
    ensures Keys(Defaults.fields) == set i | 0 <= i < |OpNames| :: OpNames[i]
    ensures Keys(Defaults.fields) !! ObjectPrototypeNames
  {
    var fs := Defaults.fields;
    OpNamesNotInherited();
    assert fs[0].0[0] == 'i' && fs[1].0[0] == 'o' && fs[2].0[0] == 'c' && fs[3].0[0] == 'i' && fs[4].0[0] == 'd';
    assert fs[0].0[2] == 'c' && fs[3].0[2] == 'i';
    forall i | 0 <= i < |OpNames| ensures OpNames[i] in Keys(fs) {
      assert fs[i].0 == OpNames[i];
    }
    forall k | k in Keys(fs) ensures k in set i | 0 <= i < |OpNames| :: OpNames[i] {
      var i :| 0 <= i < |fs| && fs[i].0 == k;
      assert OpNames[i] == k;
    }
  }

  /** One element: its object (own members included) and its links. */
  datatype Element = Element(obj: Value, down: Option<nat>, up: Option<nat>)

  /** `merge(stackEl, defaults, true)`: the element keeps every member it has
      and gains a forwarding default for each operation it lacks. */
  function WithDefaults(el: Value): (r: Value)
    requires el.Obj?
    ensures r.Obj? && r.callable == el.callable
    ensures forall k :: Lookup(el.fields, k).Some? ==> Lookup(r.fields, k) == Lookup(el.fields, k)
    ensures forall k :: Lookup(el.fields, k).None? ==> Lookup(r.fields, k) == Lookup(Defaults.fields, k)
    ensures Keys(r.fields) == Keys(el.fields) + Keys(Defaults.fields)
  {
    DefaultsAreFlat();
    MergeFlat(el, Defaults, true);
    Merge(el, Defaults, true).value
  }

  /** The links of a chain: every element but the first has the previous one
      below it, every element but the last has the next one above it. */
  predicate IsChain(st: seq<Element>) {
    forall i :: 0 <= i < |st| ==>
      st[i].down == (if i == 0 then None else Some(i - 1))
      && st[i].up == (if i == |st| - 1 then None else Some(i + 1))
  }

  /** `chainStack(stackElements)`: the linked elements and the position of the
      last one, which the caller talks to (none for an empty list). */
  function ChainStack(els: seq<Value>): (r: (seq<Element>, Option<nat>))
    requires forall i :: 0 <= i < |els| ==> els[i].Obj?
    ensures |r.0| == |els|
    ensures IsChain(r.0)
    ensures r.1 == if |els| == 0 then None else Some(|els| - 1)
    ensures forall i :: 0 <= i < |els| ==> r.0[i].obj == WithDefaults(els[i])
  {
    var st := seq(|els|, i requires 0 <= i < |els| && els[i].Obj? => Linked(els[i], i, |els|));
    (st, if |els| == 0 then None else Some(|els| - 1))
  }

  /** The element at position `i` of a chain of `n`. */
  function Linked(el: Value, i: nat, n: nat): Element
    requires el.Obj?
  {
    Element(WithDefaults(el), if i == 0 then None else Some(i - 1), if i == n - 1 then None else Some(i + 1))
  }

  /** Every element of a chain answers to every operation. */
  lemma ChainAnswersAll(els: seq<Value>)
    requires forall i :: 0 <= i < |els| ==> els[i].Obj?
    ensures forall i, j :: 0 <= i < |els| && 0 <= j < |OpNames| ==>
      Lookup(ChainStack(els).0[i].obj.fields, OpNames[j]).Some?
  {
    DefaultsAreFlat();
    forall i, j | 0 <= i < |els| && 0 <= j < |OpNames|
      ensures Lookup(ChainStack(els).0[i].obj.fields, OpNames[j]).Some?
    {
      assert OpNames[j] in Keys(Defaults.fields);
    }
  }

  /** Links point inside the stack, `down` to a lower and `up` to a higher
      position. */
  predicate Ordered(st: seq<Element>) {
    forall i :: 0 <= i < |st| ==>
      (st[i].down.Some? ==> st[i].down.value < i)
      && (st[i].up.Some? ==> i < st[i].up.value < |st|)
  }

  lemma ChainIsOrdered(st: seq<Element>)
    requires IsChain(st)
    ensures Ordered(st)
  {
  }

  /** The elements an `outgoing` call passes through from position `i`,
      following the `down` links. */
  function DownWalk(st: seq<Element>, i: nat): (w: seq<nat>)
    requires Ordered(st) && i < |st|
    ensures |w| >= 1 && w[0] == i
    decreases i
  {
    match st[i].down
    case None => [i]
    case Some(d) => [i] + DownWalk(st, d)
  }

  /** The elements an `incoming` call passes through from position `i`,
      following the `up` links. */
  function UpWalk(st: seq<Element>, i: nat): (w: seq<nat>)
    requires Ordered(st) && i < |st|
    ensures |w| >= 1 && w[0] == i
    decreases |st| - i
  {
    match st[i].up
    case None => [i]
    case Some(u) => [i] + UpWalk(st, u)
  }

  /** `i, i-1, ..., 0`. */
  function Descending(i: nat): (s: seq<nat>)
    ensures forall x :: x in s ==> x <= i
    decreases i
  {
    if i == 0 then [0] else [i] + Descending(i - 1)
  }

  /** `i, i+1, ..., n-1`. */
  function Ascending(i: nat, n: nat): (s: seq<nat>)
    ensures forall x :: x in s ==> i <= x < n
    decreases n - i
  {
    if i >= n then [] else [i] + Ascending(i + 1, n)
  }

  /** `s` without the occurrences of `e`. */
  function Without(s: seq<nat>, e: nat): (r: seq<nat>)
    ensures e !in r
    ensures forall x :: x in r <==> x in s && x != e
  {
    if |s| == 0 then []
    else if s[0] == e then Without(s[1..], e)
    else [s[0]] + Without(s[1..], e)
  }

  lemma {:induction false} WithoutAbsent(s: seq<nat>, e: nat)
    requires e !in s
    ensures Without(s, e) == s
  {
    if |s| > 0 {
      WithoutAbsent(s[1..], e);
    }
  }

  /** In a chain, `outgoing` from the top passes every element from the top
      down, and `incoming` from the bottom every element from the bottom up. */
  lemma {:induction false} ChainWalks(st: seq<Element>, i: nat)
    requires IsChain(st) && i < |st|
    ensures Ordered(st)
    ensures DownWalk(st, i) == Descending(i)
    ensures UpWalk(st, i) == Ascending(i, |st|)
    decreases |st| - i
  {
    if i + 1 < |st| {
      ChainWalks(st, i + 1);
    }
    DownFromChain(st, i);
  }

  lemma {:induction false} DownFromChain(st: seq<Element>, i: nat)
    requires IsChain(st) && i < |st|
    ensures Ordered(st)
    ensures DownWalk(st, i) == Descending(i)
    decreases i
  {
    if i > 0 {
      DownFromChain(st, i - 1);
    }
  }

  /** The outcome of `removeFromStack`: it fails with a `TypeError` on a
      missing neighbour, after whatever assignment already happened. */
  datatype Removal = Removed(stack: seq<Element>) | Failed(stack: seq<Element>, error: string)

  /** `removeFromStack(element)`: the element above now has the removed
      element's `down` below it, the element below has its `up` above it, and
      the removed element loses both links. */
  function RemoveFromStack(st: seq<Element>, e: nat): (r: Removal)
    requires Ordered(st) && e < |st|
    ensures r.Removed? <==> st[e].up.Some? && st[e].down.Some?
    ensures |r.stack| == |st|
    ensures forall i :: 0 <= i < |st| ==> r.stack[i].obj == st[i].obj
    ensures r.Removed? ==>
      && r.stack[st[e].up.value].down == st[e].down
      && r.stack[st[e].down.value].up == st[e].up
      && r.stack[e].down.None? && r.stack[e].up.None?
      && r.stack[st[e].up.value].up == st[st[e].up.value].up
      && r.stack[st[e].down.value].down == st[st[e].down.value].down
      && Ordered(r.stack)
    ensures r.Failed? && st[e].up.None? ==> r.stack == st
    ensures r.Failed? && st[e].up.Some? ==>
      r.stack[st[e].up.value].down.None? && r.stack[e] == st[e]
  {
    match st[e].up
    case None => Failed(st, "Cannot set property 'down' of undefined")
    case Some(u) =>
      var st1 := st[u := st[u].(down := st[e].down)];
      match st[e].down
      case None => Failed(st1, "Cannot set property 'up' of undefined")
      case Some(d) =>
        var st2 := st1[d := st1[d].(up := st1[e].up)];
        Removed(st2[e := st2[e].(up := None, down := None)])
  }

  /** Removal touches only the removed element and its two neighbours. */
  lemma RemoveFromStackFrame(st: seq<Element>, e: nat, i: nat)
    requires Ordered(st) && e < |st| && i < |st|
    requires i != e && Some(i) != st[e].up && Some(i) != st[e].down
    ensures RemoveFromStack(st, e).stack[i] == st[i]
  {
  }

  /** The links of a chain after its element `e` is removed. */
  predicate ChainWithout(st: seq<Element>, e: nat)
    requires 0 < e < |st| - 1
  {
    forall i :: 0 <= i < |st| ==>
      st[i].down == (if i == e then None else if i == e + 1 then Some(e - 1) else if i == 0 then None else Some(i - 1))
      && st[i].up == (if i == e then None else if i == e - 1 then Some(e + 1) else if i == |st| - 1 then None else Some(i + 1))
  }

  lemma RemoveFromChainLinks(st: seq<Element>, e: nat)
    requires IsChain(st) && 0 < e < |st| - 1
    ensures Ordered(st)
    ensures RemoveFromStack(st, e).Removed?
    ensures |RemoveFromStack(st, e).stack| == |st|
    ensures ChainWithout(RemoveFromStack(st, e).stack, e)
  {
  }

  /** Walks over a chain with `e` removed. */
  lemma ChainWithoutWalks(st: seq<Element>, e: nat)
    requires 0 < e < |st| - 1 && ChainWithout(st, e)
    ensures Ordered(st)
    ensures DownWalk(st, |st| - 1) == Without(Descending(|st| - 1), e)
    ensures UpWalk(st, 0) == Without(Ascending(0, |st|), e)
  {
    RemovedDownWalk(st, e, |st| - 1);
    RemovedUpWalk(st, e, 0);
  }

  /** Removing an element from the middle of a chain keeps the stack working:
      `outgoing` from the top and `incoming` from the bottom pass every other
      element, in the same order, and skip the removed one. */
  lemma RemoveFromChain(st: seq<Element>, e: nat)
    requires IsChain(st) && 0 < e < |st| - 1
    ensures Ordered(st)
    ensures RemoveFromStack(st, e).Removed?
    ensures var st' := RemoveFromStack(st, e).stack;
      && Ordered(st')
      && DownWalk(st', |st| - 1) == Without(Descending(|st| - 1), e)
      && UpWalk(st', 0) == Without(Ascending(0, |st|), e)
  {
    RemoveFromChainLinks(st, e);
    var st' := RemoveFromStack(st, e).stack;
    assert 0 < e < |st'| - 1 && ChainWithout(st', e);
    ChainWithoutWalks(st', e);
    assert Ordered(st');
    assert DownWalk(st', |st| - 1) == Without(Descending(|st| - 1), e);
  }

  lemma ChainWithoutOrdered(st: seq<Element>, e: nat)
    requires 0 < e < |st| - 1 && ChainWithout(st, e)
    ensures Ordered(st)
  {
  }

  lemma {:induction false} RemovedDownWalk(st: seq<Element>, e: nat, i: nat)
    requires 0 < e < |st| - 1 && ChainWithout(st, e) && e < i < |st|
    ensures Ordered(st)
    ensures DownWalk(st, i) == Without(Descending(i), e)
    decreases i
  {
    ChainWithoutOrdered(st, e);
    var below := if i == e + 1 then e - 1 else i - 1;
    assert st[i].down == Some(below);
    assert DownWalk(st, i) == [i] + DownWalk(st, below);
    assert Descending(i)[1..] == Descending(i - 1);
    assert Without(Descending(i), e) == [i] + Without(Descending(i - 1), e);
    if i == e + 1 {
      ChainBelow(st, e, e - 1);
      WithoutAbsent(Descending(e - 1), e);
      assert Descending(e)[1..] == Descending(e - 1);
      assert Without(Descending(e), e) == Without(Descending(e - 1), e);
    } else {
      RemovedDownWalk(st, e, i - 1);
    }
  }

  /** Below the removed element the links are those of a chain. */
  lemma {:induction false} ChainBelow(st: seq<Element>, e: nat, i: nat)
    requires 0 < e < |st| - 1 && ChainWithout(st, e) && i < e
    ensures Ordered(st)
    ensures DownWalk(st, i) == Descending(i)
    decreases i
  {
    if i > 0 {
      ChainBelow(st, e, i - 1);
    }
  }

  /** Above the removed element the links are those of a chain. */
  lemma {:induction false} ChainAbove(st: seq<Element>, e: nat, i: nat)
    requires 0 < e < |st| - 1 && ChainWithout(st, e) && e < i < |st|
    ensures Ordered(st)
    ensures UpWalk(st, i) == Ascending(i, |st|)
    decreases |st| - i
  {
    if i + 1 < |st| {
      ChainAbove(st, e, i + 1);
    }
  }

  lemma {:induction false} RemovedUpWalk(st: seq<Element>, e: nat, i: nat)
    requires 0 < e < |st| - 1 && ChainWithout(st, e) && i < e
    ensures Ordered(st)
    ensures UpWalk(st, i) == Without(Ascending(i, |st|), e)
    decreases e - i
  {
    ChainWithoutOrdered(st, e);
    UpLinkBelow(st, e, i);
    var above := if i == e - 1 then e + 1 else i + 1;
    assert UpWalk(st, i) == [i] + UpWalk(st, above);
    AscendingWithout(i, |st|, e);
    if i == e - 1 {
      ChainAbove(st, e, e + 1);
      AscendingSkip(e, |st|);
    } else {
      RemovedUpWalk(st, e, i + 1);
    }
  }

  /** Below the removed element, `up` leads to the next element, skipping it. */
  lemma UpLinkBelow(st: seq<Element>, e: nat, i: nat)
    requires 0 < e < |st| - 1 && ChainWithout(st, e) && i < e
    ensures st[i].up == Some(if i == e - 1 then e + 1 else i + 1)
  {
  }

  lemma AscendingWithout(i: nat, n: nat, e: nat)
    requires i < n && i != e
    ensures Without(Ascending(i, n), e) == [i] + Without(Ascending(i + 1, n), e)
  {
    assert Ascending(i, n)[1..] == Ascending(i + 1, n);
  }

  lemma AscendingSkip(e: nat, n: nat)
    requires e < n
    ensures Without(Ascending(e, n), e) == Ascending(e + 1, n)
  {
    assert Ascending(e, n)[1..] == Ascending(e + 1, n);
    WithoutAbsent(Ascending(e + 1, n), e);
  }
}
