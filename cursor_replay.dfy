/** The reference pass of TokenReplay read through a cursor: the same steps, but taken at
    an index of the whole entry list (as XmlTokenStreamWriter's position does) instead of
    on the suffix that starts there. The bridge lemmas prove the two readings equal. The
    index form exists so that the loop proof of WriteTo never builds suffixes of the list,
    which keeps that proof cheap. */
module CursorReplay {
  import opened XmlTokens
  import opened TokenReplay
  import opened ReplayProperties
  import opened Sequences

  /** How many Attribute entries follow one another from index `i` on: the attributes an
      Element at `i - 1` owns. */
  function OwnedCount(es: seq<XmlTokenEntry>, i: nat): (n: nat)
    requires i <= |es|
    ensures i + n <= |es|
    decreases |es| - i
  {
    if i == |es| || es[i].nodeType != Attribute then 0 else 1 + OwnedCount(es, i + 1)
  }

  /** The attribute writes for the entries from `i` up to (not including) `j`, built from
      the back, one write per cursor move. */
  function OwnedCalls(es: seq<XmlTokenEntry>, i: nat, j: nat): seq<WriteCall>
    requires i <= j <= |es|
    decreases j - i
  {
    if j == i then [] else OwnedCalls(es, i, j - 1) + [AttributeCall(es[j - 1])]
  }

  /** One pass of the loop body with the cursor at `i`. */
  function StepFrom(es: seq<XmlTokenEntry>, i: nat, target: Exclusion, st: State): (p: Progress)
    requires i < |es|
    ensures 1 <= p.consumed <= |es| - i
  {
    if es[i].nodeType == Element then
      var n := OwnedCount(es, i + 1);
      var o := ElementStep(es[i], OwnedCalls(es, i + 1, i + 1 + n), target, st);
      Progress(o.calls, 1 + n, o.state)
    else
      var o := EntryStep(es[i], st);
      Progress(o.calls, 1, o.state)
  }

  /** The rest of the pass with the cursor at `i`. */
  function RunFrom(es: seq<XmlTokenEntry>, i: nat, target: Exclusion, st: State): Emission
    requires i <= |es|
    decreases |es| - i
  {
    if i == |es| then Emission([], st)
    else
      var p := StepFrom(es, i, target, st);
      var rest := RunFrom(es, i + p.consumed, target, p.state);
      Emission(p.calls + rest.calls, rest.state)
  }

  lemma {:induction false} AttributeCallsAppend(x: seq<XmlTokenEntry>, y: seq<XmlTokenEntry>)
    ensures AttributeCalls(x + y) == AttributeCalls(x) + AttributeCalls(y)
  {
    if x == [] {
      AppendEmpty(y);
      AppendEmpty(AttributeCalls(y));
    } else {
      ConsTail(x[0], x[1..] + y);
      HeadTail(x);
      AppendAssoc([x[0]], x[1..], y);
      AttributeCallsAppend(x[1..], y);
      AppendAssoc([AttributeCall(x[0])], AttributeCalls(x[1..]), AttributeCalls(y));
    }
  }

  /** The cursor's count of owned attributes is the run of attributes the reference pass
      gives the suffix. */
  lemma {:induction false} OwnedCountBridge(es: seq<XmlTokenEntry>, i: nat)
    requires i <= |es|
    ensures OwnedCount(es, i) == AttributeRun(es[i..])
    decreases |es| - i
  {
    if i < |es| {
      DropDrop(es, i, 1);
      OwnedCountBridge(es, i + 1);
    }
  }

  /** The cursor's attribute writes are the reference pass's writes for the same slice. */
  lemma {:induction false} OwnedCallsBridge(es: seq<XmlTokenEntry>, i: nat, j: nat)
    requires i <= j <= |es|
    ensures OwnedCalls(es, i, j) == AttributeCalls(es[i..j])
    decreases j - i
  {
    if j == i {
      assert es[i..j] == [];
    } else {
      OwnedCallsBridge(es, i, j - 1);
      assert es[i..j] == es[i..j - 1] + [es[j - 1]];
      AttributeCallsAppend(es[i..j - 1], [es[j - 1]]);
      assert [es[j - 1]][1..] == [];
    }
  }

  /** A step at the cursor is the reference step on the suffix from the cursor. */
  lemma StepFromBridge(es: seq<XmlTokenEntry>, i: nat, target: Exclusion, st: State)
    requires i < |es|
    ensures StepFrom(es, i, target, st) == Step(es[i..], target, st)
  {
    if es[i].nodeType == Element {
      var n := OwnedCount(es, i + 1);
      DropDrop(es, i, 1);
      OwnedCountBridge(es, i + 1);
      OwnedCallsBridge(es, i + 1, i + 1 + n);
      TakeSplit(es, i + 1, n);
    }
  }

  /** The rest of the pass from the cursor and the reference pass of the suffix from the
      cursor agree. */
  predicate Bridged(es: seq<XmlTokenEntry>, i: nat, target: Exclusion, st: State)
  {
    i <= |es| && RunFrom(es, i, target, st) == Run(es[i..], target, st)
  }

  lemma {:induction false} RunFromBridged(es: seq<XmlTokenEntry>, i: nat, target: Exclusion, st: State)
    requires i <= |es|
    ensures Bridged(es, i, target, st)
    decreases |es| - i
  {
    if i == |es| {
      assert es[i..] == [];
    } else {
      var p := StepFrom(es, i, target, st);
      RunFromBridged(es, i + p.consumed, target, p.state);
      StepFromBridge(es, i, target, st);
      assert es[i..][p.consumed..] == es[i + p.consumed..];
    }
  }

  /** The rest of the pass from the cursor is the reference pass of the suffix. */
  lemma RunFromBridge(es: seq<XmlTokenEntry>, i: nat, target: Exclusion, st: State)
    requires i <= |es|
    ensures RunFrom(es, i, target, st) == Run(es[i..], target, st)
  {
    RunFromBridged(es, i, target, st);
  }
}
