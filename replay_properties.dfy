/** What one replay pass guarantees, proved about the reference definition in TokenReplay:
    the per-entry rules of the exclusion state machine, depth accounting, the state
    invariant, and that a matched subtree vanishes without disturbing anything around it.
    The replay with nothing to exclude is treated in ReplayRoundTrip. */
module ReplayProperties {
  import opened Wrappers
  import opened XmlTokens
  import opened TokenReplay
  import opened Sequences

  // ---------------------------------------------------------------------------
  // Per-entry rules

  /** DocumentType and XmlDeclaration entries, stray attributes and node kinds without a
      case write nothing and leave the state alone, whether or not a region is open. */
  lemma StepDropped(es: seq<XmlTokenEntry>, target: Exclusion, st: State)
    requires es != []
    requires es[0].nodeType in {DocumentType, XmlDeclaration, Attribute, Other}
    ensures Step(es, target, st) == Progress([], 1, st)
  {
  }

  /** Each content kind writes exactly its own call with the entry's value, and only while
      including; it never changes the state. */
  lemma StepContent(es: seq<XmlTokenEntry>, target: Exclusion, st: State)
    requires es != []
    requires es[0].nodeType in {Text, CData, Comment, Whitespace, SignificantWhitespace}
    ensures var p := Step(es, target, st);
      && p.consumed == 1 && p.state == st
      && |p.calls| == (if st.including then 1 else 0)
      && (st.including ==> p.calls[0] == match es[0].nodeType
                                        case Text => WriteString(es[0].value)
                                        case CData => WriteCData(es[0].value)
                                        case Comment => WriteComment(es[0].value)
                                        case _ => WriteWhitespace(es[0].value))
  {
  }

  /** An Element seen while including starts a region exactly when its name and namespace
      are the target's and the parent-depth constraint is unset or names its parent's
      depth. A started region records the element's own depth and suppresses its start tag
      and attributes; otherwise the start tag and every owned attribute are written. */
  lemma StepOpensRegion(es: seq<XmlTokenEntry>, target: Exclusion, st: State)
    requires es != [] && es[0].nodeType == Element && !es[0].isEmptyElement
    requires st.including
    ensures var p := Step(es, target, st);
      && p.consumed == 1 + AttributeRun(es[1..])
      && (!p.state.including <==>
            (target.parentDepth.None? || target.parentDepth == Some(st.depth))
            && target.element == Some(es[0].localName)
            && target.namespaceUri == Some(es[0].namespaceUri))
      && (!p.state.including ==> p.calls == [] && p.state == State(st.depth + 1, false, st.depth + 1))
      && (p.state.including ==>
            p.calls == [StartCall(es[0])] + AttributeCalls(es[1..p.consumed])
            && p.state == st.(depth := st.depth + 1))
 {
    TakeSplit(es, 1, AttributeRun(es[1..]));
  }

  /** A self-closing Element is an Element followed at once by the EndElement case: the
      depth is unchanged, an included one writes start, attributes and end, and an excluded
      one closes its own region, so it writes nothing and leaves the state as it was. */
  lemma StepSelfClosing(es: seq<XmlTokenEntry>, target: Exclusion, st: State)
    requires es != [] && es[0].nodeType == Element && es[0].isEmptyElement
    requires st.including && st.recordedDepth == -1
    ensures var p := Step(es, target, st);
      && p.consumed == 1 + AttributeRun(es[1..])
      && p.state == st
      && (StartsExclusion(target, es[0], st, st.depth + 1) ==> p.calls == [])
      && (!StartsExclusion(target, es[0], st, st.depth + 1) ==>
            p.calls == [StartCall(es[0])] + AttributeCalls(es[1..p.consumed]) + [WriteEndElement])
 {
    TakeSplit(es, 1, AttributeRun(es[1..]));
  }

  /** While excluding nothing is written, a further match does not restart the region or
      move the recorded depth, and the region closes exactly at the EndElement (or
      self-closing Element) whose depth is the recorded one. */
  lemma StepWhileExcluding(es: seq<XmlTokenEntry>, target: Exclusion, st: State)
    requires es != [] && !st.including
    ensures var p := Step(es, target, st);
      var e := es[0];
      && p.calls == []
      && (p.state.including <==>
            || (e.nodeType == EndElement && st.recordedDepth == st.depth)
            || (e.nodeType == Element && e.isEmptyElement && st.recordedDepth == st.depth + 1))
      && (p.state.including ==> p.state.recordedDepth == -1)
      && (!p.state.including ==> p.state.recordedDepth == st.recordedDepth)
  {
  }

  // ---------------------------------------------------------------------------
  // Depth accounting and the state invariant

  lemma {:induction false} BalanceAppend(a: seq<XmlTokenEntry>, b: seq<XmlTokenEntry>)
    ensures Balance(a + b) == Balance(a) + Balance(b)
  {
    if a == [] {
      AppendEmpty(b);
    } else {
      DropAppend(a, b, 1);
      BalanceAppend(a[1..], b);
    }
  }

  lemma {:induction false} AttributesBalanced(attrs: seq<XmlTokenEntry>)
    requires forall k :: 0 <= k < |attrs| ==> attrs[k].nodeType == Attribute
    ensures Balance(attrs) == 0
  {
    if attrs != [] {
      AttributesBalanced(attrs[1..]);
    }
  }

  /** One step moves the depth by the net balance of the entries it consumed. */
  lemma StepDepth(es: seq<XmlTokenEntry>, target: Exclusion, st: State)
    requires es != []
    ensures var p := Step(es, target, st);
      p.state.depth == st.depth + Balance(es[..p.consumed])
  {
    var p := Step(es, target, st);
    assert (es[..p.consumed])[1..] == es[1..p.consumed];
    if es[0].nodeType == Element {
      AttributesBalanced(es[1..p.consumed]);
    }
  }

  /** The depth is raised once per Element and lowered once per EndElement whatever the
      exclusion state: a pass ends at its start depth plus the entries' balance. */
  lemma {:induction false} RunDepth(es: seq<XmlTokenEntry>, target: Exclusion, st: State)
    ensures Run(es, target, st).state.depth == st.depth + Balance(es)
    decreases |es|
  {
    if es != [] {
      var p := Step(es, target, st);
      StepDepth(es, target, st);
      RunDepth(es[p.consumed..], target, p.state);
      RunUnfold(es, target, st);
      TakeDrop(es, p.consumed);
      BalanceAppend(es[..p.consumed], es[p.consumed..]);
    }
  }

  /** Starting from depth `from`, no prefix of `es` brings the depth below `floor`. */
  ghost predicate StaysAbove(es: seq<XmlTokenEntry>, from: int, floor: int)
  {
    forall k :: 0 <= k <= |es| ==> from + Balance(es[..k]) >= floor
  }

  /** A well-nested entry list: the depth never goes negative and ends where it began. */
  ghost predicate WellNested(es: seq<XmlTokenEntry>)
  {
    StaysAbove(es, 0, 0) && Balance(es) == 0
  }

  lemma SuffixStaysAbove(es: seq<XmlTokenEntry>, n: nat, from: int, floor: int)
    requires n <= |es| && StaysAbove(es, from, floor)
    ensures StaysAbove(es[n..], from + Balance(es[..n]), floor)
  {
    forall k | 0 <= k <= |es| - n
      ensures from + Balance(es[..n]) + Balance(es[n..][..k]) >= floor
    {
      TakeSplit(es, n, k);
      BalanceAppend(es[..n], es[n..][..k]);
    }
  }

  lemma StepKeepsConsistent(es: seq<XmlTokenEntry>, target: Exclusion, st: State)
    requires es != [] && Consistent(st)
    requires Step(es, target, st).state.depth >= 0
    ensures Consistent(Step(es, target, st).state)
  {
  }

  /** While the depth never goes negative, the loop keeps its invariant: excluding exactly
      when a depth is recorded, and then 1 <= recordedDepth <= depth. */
  lemma {:induction false} RunKeepsConsistent(es: seq<XmlTokenEntry>, target: Exclusion, st: State)
    requires Consistent(st) && StaysAbove(es, st.depth, 0)
    ensures Consistent(Run(es, target, st).state)
    decreases |es|
  {
    if es != [] {
      var p := Step(es, target, st);
      StepDepth(es, target, st);
      StepKeepsConsistent(es, target, st);
      SuffixStaysAbove(es, p.consumed, st.depth, 0);
      RunKeepsConsistent(es[p.consumed..], target, p.state);
      RunUnfold(es, target, st);
    }
  }

  /** A well-nested buffer is replayed back to the initial state: every region that starts
      also ends, and the pass finishes including at depth 0. */
  lemma WellNestedReplayCloses(es: seq<XmlTokenEntry>, target: Exclusion)
    requires WellNested(es)
    ensures Run(es, target, Initial).state == Initial
  {
    RunDepth(es, target, Initial);
    RunKeepsConsistent(es, target, Initial);
  }

  // ---------------------------------------------------------------------------
  // Splitting a pass

  /** A non-empty pass is its first step followed by the pass over what that step left. */
  lemma RunUnfold(es: seq<XmlTokenEntry>, target: Exclusion, st: State)
    requires es != []
    ensures var p := Step(es, target, st);
      var r := Run(es[p.consumed..], target, p.state);
      Run(es, target, st) == Emission(p.calls + r.calls, r.state)
  {
  }

  lemma {:induction false} AttributeRunAppend(a: seq<XmlTokenEntry>, b: seq<XmlTokenEntry>)
    requires b == [] || b[0].nodeType != Attribute
    ensures AttributeRun(a + b) == AttributeRun(a)
  {
    if a == [] {
      AppendEmpty(b);
    } else if a[0].nodeType == Attribute {
      DropAppend(a, b, 1);
      AttributeRunAppend(a[1..], b);
    }
  }

  lemma StepAppend(a: seq<XmlTokenEntry>, b: seq<XmlTokenEntry>, target: Exclusion, st: State)
    requires a != [] && (b == [] || b[0].nodeType != Attribute)
    ensures Step(a + b, target, st) == Step(a, target, st)
  {
    assert (a + b)[0] == a[0];
    DropAppend(a, b, 1);
    AttributeRunAppend(a[1..], b);
    TakeAppend(a[1..], b, AttributeRun(a[1..]));
  }

  /** A pass over `a + b` is a pass over `a` followed by a pass over `b` from where the
      first ended, as long as `b` does not begin with attributes an element of `a` owns. */
  lemma {:induction false} RunAppend(a: seq<XmlTokenEntry>, b: seq<XmlTokenEntry>, target: Exclusion, st: State)
    requires b == [] || b[0].nodeType != Attribute
    ensures var ra := Run(a, target, st);
      var rb := Run(b, target, ra.state);
      Run(a + b, target, st) == Emission(ra.calls + rb.calls, rb.state)
    decreases |a|
  {
    if a == [] {
      AppendEmpty(b);
    } else {
      var p := Step(a, target, st);
      var rest := a[p.consumed..];
      StepAppend(a, b, target, st);
      DropAppend(a, b, p.consumed);
      RunAppend(rest, b, target, p.state);
      RunUnfold(a + b, target, st);
      RunUnfold(a, target, st);
      var rr := Run(rest, target, p.state);
      AppendAssoc(p.calls, rr.calls, Run(b, target, rr.state).calls);
    }
  }

  // ---------------------------------------------------------------------------
  // Exclusion regions

  /** While a region is open and the depth stays at or above its recorded depth, the pass
      writes nothing and the region stays open with the same recorded depth, whatever
      matches the target inside it. */
  lemma {:induction false} ExcludedRun(es: seq<XmlTokenEntry>, target: Exclusion, st: State)
    requires !st.including && StaysAbove(es, st.depth, st.recordedDepth)
    ensures Run(es, target, st) == Emission([], State(st.depth + Balance(es), false, st.recordedDepth))
    decreases |es|
  {
    if es != [] {
      var p := Step(es, target, st);
      StepDepth(es, target, st);
      assert es[..1] == [es[0]];
      assert StaysAbove(es, st.depth, st.recordedDepth) ==> st.depth + Balance(es[..1]) >= st.recordedDepth;
      StepWhileExcluding(es, target, st);
      SuffixStaysAbove(es, p.consumed, st.depth, st.recordedDepth);
      ExcludedRun(es[p.consumed..], target, p.state);
      RunUnfold(es, target, st);
      TakeDrop(es, p.consumed);
      BalanceAppend(es[..p.consumed], es[p.consumed..]);
    }
  }

  /** `region` is one element subtree: an Element with the attributes it owns and, unless
      it is self-closing, its content up to and including its matching EndElement. */
  ghost predicate Subtree(region: seq<XmlTokenEntry>)
  {
    && region != []
    && region[0].nodeType == Element
    && if region[0].isEmptyElement then
         forall k :: 1 <= k < |region| ==> region[k].nodeType == Attribute
       else
         Balance(region) == 0 && forall k :: 1 <= k < |region| ==> Balance(region[..k]) >= 1
  }

  /** The shape of a subtree that is not self-closing: after the element and its
      attributes comes a body whose depth never dips below its start and ends level,
      followed by the matching EndElement as the last entry. */
  lemma SubtreeBody(region: seq<XmlTokenEntry>, n: nat)
    requires Subtree(region) && !region[0].isEmptyElement
    requires n == 1 + AttributeRun(region[1..])
    ensures n < |region| && region[|region| - 1].nodeType == EndElement
    ensures StaysAbove(region[n..|region| - 1], 0, 0) && Balance(region[n..|region| - 1]) == 0
  {
    var last := |region| - 1;
    HeadBalance(region, n);
    LastCloses(region);
    var head := region[..n];
    var mid := region[n..last];
    TakeSplit(region, n, last - n);
    BalanceAppend(head, mid);
    forall k | 0 <= k <= |mid|
      ensures 0 + Balance(mid[..k]) >= 0
    {
      TakeSplit(region, n, k);
      BalanceAppend(head, region[n..][..k]);
      assert mid[..k] == region[n..][..k];
    }
  }

  /** The element and the attributes it owns open exactly one level, and the body does not
      begin before them. */
  lemma HeadBalance(region: seq<XmlTokenEntry>, n: nat)
    requires Subtree(region) && !region[0].isEmptyElement
    requires n == 1 + AttributeRun(region[1..])
    ensures n <= |region| && Balance(region[..n]) == 1
  {
    TailOfTake(region, n);
    AttributesBalanced(region[1..n]);
    BalanceCons(region[0], region[1..n]);
  }

  /** The last entry of a subtree that is not self-closing is its matching EndElement, and
      the attributes the root owns stop before it. */
  lemma LastCloses(region: seq<XmlTokenEntry>)
    requires Subtree(region) && !region[0].isEmptyElement
    ensures 1 + AttributeRun(region[1..]) < |region|
    ensures region[|region| - 1].nodeType == EndElement
    ensures Balance(region[..|region| - 1]) == 1
  {
    var last := |region| - 1;
    LastDrop(region);
    TakeDrop(region, last);
    BalanceAppend(region[..last], [region[last]]);
    BalanceCons(region[last], []);
    AppendEmpty([region[last]]);
    var n := AttributeRun(region[1..]);
    assert region[1..][last - 1] == region[last];
  }

  lemma BalanceCons(x: XmlTokenEntry, rest: seq<XmlTokenEntry>)
    ensures Balance([x] + rest) == Delta(x) + Balance(rest)
  {
    DropAppend([x], rest, 1);
  }

  /** A subtree whose root starts a region is replayed as nothing at all: no start tag, no
      attributes, no content, no end tag, and the state afterwards is the state before. */
  lemma ExcludedSubtreeVanishes(region: seq<XmlTokenEntry>, target: Exclusion, st: State)
    requires Subtree(region)
    requires st.including && st.recordedDepth == -1
    requires StartsExclusion(target, region[0], st, st.depth + 1)
    ensures Run(region, target, st) == Emission([], st)
  {
    var e := region[0];
    var p := Step(region, target, st);
    var entered := State(st.depth + 1, false, st.depth + 1);
    assert Open(target, e, st) == entered;
    if e.isEmptyElement {
      assert p == Progress([], |region|, st);
      assert region[p.consumed..] == [];
    } else {
      assert p == Progress([], p.consumed, entered);
      ExcludedBodyCloses(region, p.consumed, target, entered);
    }
  }

  lemma ExcludedBodyCloses(region: seq<XmlTokenEntry>, n: nat, target: Exclusion, entered: State)
    requires Subtree(region) && !region[0].isEmptyElement
    requires n == 1 + AttributeRun(region[1..])
    requires !entered.including && entered.recordedDepth == entered.depth
    ensures n <= |region|
    ensures Run(region[n..], target, entered) == Emission([], State(entered.depth - 1, true, -1))
  {
    var last := |region| - 1;
    SubtreeBody(region, n);
    RegionCloses(region[n..last], region[last], target, entered);
    DropSplit(region, n, last);
    LastDrop(region);
  }

  /** A region body that stays level, then the EndElement at the recorded depth: nothing is
      written and the region closes one level up. */
  lemma RegionCloses(mid: seq<XmlTokenEntry>, x: XmlTokenEntry, target: Exclusion, entered: State)
    requires !entered.including && entered.recordedDepth == entered.depth
    requires StaysAbove(mid, 0, 0) && Balance(mid) == 0 && x.nodeType == EndElement
    ensures Run(mid + [x], target, entered) == Emission([], State(entered.depth - 1, true, -1))
  {
    StaysAboveShift(mid, 0, 0, entered.depth);
    ExcludedRun(mid, target, entered);
    var body := Run(mid, target, entered);
    assert body == Emission([], entered);
    RunSingleEnd(x, target, entered);
    RunAppend(mid, [x], target, entered);
  }

  lemma StaysAboveShift(es: seq<XmlTokenEntry>, from: int, floor: int, d: int)
    requires StaysAbove(es, from, floor)
    ensures StaysAbove(es, from + d, floor + d)
  {
  }

  /** An EndElement alone goes through the EndElement case and nothing else. */
  lemma RunSingleEnd(x: XmlTokenEntry, target: Exclusion, st: State)
    requires x.nodeType == EndElement
    ensures Run([x], target, st) == Close(st)
  {
    RunUnfold([x], target, st);
    assert [x][1..] == [];
  }

  /** Excluding a subtree removes exactly that subtree: the replay of
      `pre + region + post` equals the replay of `pre + post`, so everything before and
      after it is written as if the subtree had never been captured. */
  lemma ExclusionContainment(pre: seq<XmlTokenEntry>, region: seq<XmlTokenEntry>, post: seq<XmlTokenEntry>,
                             target: Exclusion, st: State)
    requires Subtree(region)
    requires post == [] || post[0].nodeType != Attribute
    requires var s := Run(pre, target, st).state;
      s.including && s.recordedDepth == -1 && StartsExclusion(target, region[0], s, s.depth + 1)
    ensures Run(pre + region + post, target, st) == Run(pre + post, target, st)
  {
    var s := Run(pre, target, st).state;
    RunAppend(region, post, target, s);
    ExcludedSubtreeVanishes(region, target, s);
    AppendEmpty(Run(post, target, s).calls);
    RunAppend(pre, region + post, target, st);
    RunAppend(pre, post, target, st);
    AppendAssoc(pre, region, post);
  }

  /** A closed region does not end exclusion for good: a later sibling that matches again
      (with the state back to including) opens a second region, and both subtrees are left
      out while everything around them is written. */
  lemma SeveralRegionsExcluded(pre: seq<XmlTokenEntry>, first: seq<XmlTokenEntry>, mid: seq<XmlTokenEntry>,
                               second: seq<XmlTokenEntry>, post: seq<XmlTokenEntry>,
                               target: Exclusion, st: State)
    requires Subtree(first) && Subtree(second)
    requires mid == [] || mid[0].nodeType != Attribute
    requires post == [] || post[0].nodeType != Attribute
    requires var s := Run(pre, target, st).state;
      s.including && s.recordedDepth == -1 && StartsExclusion(target, first[0], s, s.depth + 1)
    requires var s := Run(pre + mid, target, st).state;
      s.including && s.recordedDepth == -1 && StartsExclusion(target, second[0], s, s.depth + 1)
    ensures Run(pre + first + mid + second + post, target, st) == Run(pre + mid + post, target, st)
  {
    var rest := mid + second + post;
    assert rest[0].nodeType != Attribute by {
      if mid == [] {
        AppendEmpty(second);
        assert rest[0] == second[0];
      } else {
        assert rest[0] == mid[0];
      }
    }
    ExclusionContainment(pre, first, rest, target, st);
    ExclusionContainment(pre + mid, second, post, target, st);
    AppendAssoc(pre + first, mid + second, post);
    AppendAssoc(pre + first, mid, second);
    AppendAssoc(pre, mid + second, post);
    AppendAssoc(pre, mid, second);
    AppendAssoc(pre, mid, post);
  }

  /** The enveloped-signature use: a document whose self-closing Signature element is the
      target is replayed without it, and its root is still written and closed. */
  lemma EnvelopedSignatureLeftOut()
    ensures var root := XmlTokenEntry(Element, "", "Doc", "urn:doc", "", false);
      var signature := XmlTokenEntry(Element, "ds", "Signature", "urn:ds", "", true);
      var close := XmlTokenEntry(EndElement, "", "Doc", "urn:doc", "", false);
      Replay([root, signature, close], Exclusion(Some("Signature"), None, Some("urn:ds")))
        == Success([WriteStartElement("", "Doc", "urn:doc"), WriteEndElement])
  {
    var root := XmlTokenEntry(Element, "", "Doc", "urn:doc", "", false);
    var signature := XmlTokenEntry(Element, "ds", "Signature", "urn:ds", "", true);
    var close := XmlTokenEntry(EndElement, "", "Doc", "urn:doc", "", false);
    var es := [root, signature, close];
    var target := Exclusion(Some("Signature"), None, Some("urn:ds"));
    assert es[1..] == [signature, close];
    assert es[1..][1..] == [close];
    assert [signature, close][1..] == [close];
    assert [close][1..] == [];
    assert !NameMatches(target, root) by {
      assert |root.localName| == 3;
    }
    assert Step(es, target, Initial) == Progress([StartCall(root)], 1, State(1, true, -1));
    assert Step([signature, close], target, State(1, true, -1)) == Progress([], 1, State(1, true, -1));
    assert Step([close], target, State(1, true, -1)) == Progress([WriteEndElement], 1, State(0, true, -1));
    RunUnfold([close], target, State(1, true, -1));
    assert Run([close], target, State(1, true, -1)).calls == [WriteEndElement];
    RunUnfold([signature, close], target, State(1, true, -1));
    assert Run([signature, close], target, State(1, true, -1)).calls == [WriteEndElement];
    RunUnfold(es, target, Initial);
    assert Run(es, target, Initial).calls == [StartCall(root), WriteEndElement];
  }

  /** Dropped node kinds are invisible: removing a DocumentType or XmlDeclaration entry
      (one that no attribute follows) leaves the replay unchanged. */
  lemma DroppedEntryInvisible(pre: seq<XmlTokenEntry>, d: XmlTokenEntry, post: seq<XmlTokenEntry>,
                              target: Exclusion, st: State)
    requires d.nodeType == DocumentType || d.nodeType == XmlDeclaration
    requires post == [] || post[0].nodeType != Attribute
    ensures Run(pre + [d] + post, target, st) == Run(pre + post, target, st)
  {
    var s := Run(pre, target, st).state;
    assert Step([d] + post, target, s) == Progress([], 1, s);
    assert ([d] + post)[1..] == post;
    assert Run([d] + post, target, s) == Run(post, target, s);
    RunAppend(pre, [d] + post, target, st);
    RunAppend(pre, post, target, st);
    AppendAssoc(pre, [d], post);
  }
}
