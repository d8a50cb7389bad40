/** Replays with nothing to exclude: a self-closing element is replayed exactly like an
    explicit start/end pair, and every token then yields its own writer call, in order. */
module ReplayRoundTrip {
  import opened Wrappers
  import opened XmlTokens
  import opened TokenReplay
  import opened ReplayProperties
  import opened Sequences

  /** The EndElement entry that closes `e` explicitly. */
  function EndOf(e: XmlTokenEntry): XmlTokenEntry
  {
    XmlTokenEntry(EndElement, e.prefix, e.localName, e.namespaceUri, "", false)
  }

  predicate NoSelfClosing(es: seq<XmlTokenEntry>)
  {
    forall k :: 0 <= k < |es| ==> !(es[k].nodeType == Element && es[k].isEmptyElement)
  }

  /** Every Attribute entry but a leading one directly follows an Element or another
      Attribute, as in any list captured from a reader. */
  predicate Chained(es: seq<XmlTokenEntry>)
  {
    forall k :: 1 <= k < |es| && es[k].nodeType == Attribute ==>
      es[k - 1].nodeType == Element || es[k - 1].nodeType == Attribute
  }

  /** No Element entry has the target's name and namespace. */
  predicate NoMatch(target: Exclusion, es: seq<XmlTokenEntry>)
  {
    forall k :: 0 <= k < |es| && es[k].nodeType == Element ==> !NameMatches(target, es[k])
  }

  /** The entries a self-closing Element at the front of `es` expands into, before the
      expansion of what follows its attributes. */
  function ExpandedHead(es: seq<XmlTokenEntry>): seq<XmlTokenEntry>
    requires es != []
  {
    [es[0].(isEmptyElement := false)] + es[1..][..AttributeRun(es[1..])] + [EndOf(es[0])]
  }

  /** Rewrites every self-closing Element, after the attributes it owns, into an explicit
      start and a separate EndElement entry. */
  function Expand(es: seq<XmlTokenEntry>): (r: seq<XmlTokenEntry>)
    ensures es == [] <==> r == []
    ensures es != [] ==> r[0].nodeType == es[0].nodeType
    decreases |es|
  {
    if es == [] then []
    else if es[0].nodeType == Element && es[0].isEmptyElement then
      ExpandedHead(es) + Expand(es[1..][AttributeRun(es[1..])..])
    else
      [es[0]] + Expand(es[1..])
  }

  /** The writer call a single token stands for in a replay that excludes nothing. */
  function Image(e: XmlTokenEntry): seq<WriteCall>
  {
    match e.nodeType
    case Element => [StartCall(e)]
    case EndElement => [WriteEndElement]
    case Attribute => [AttributeCall(e)]
    case _ => ContentCalls(e)
  }

  function Images(es: seq<XmlTokenEntry>): seq<WriteCall>
  {
    if es == [] then [] else Image(es[0]) + Images(es[1..])
  }

  lemma {:induction false} ImagesAppend(a: seq<XmlTokenEntry>, b: seq<XmlTokenEntry>)
    ensures Images(a + b) == Images(a) + Images(b)
  {
    if a == [] {
      AppendEmpty(b);
    } else {
      DropAppend(a, b, 1);
      ImagesAppend(a[1..], b);
    }
  }

  lemma {:induction false} AttributeImages(attrs: seq<XmlTokenEntry>)
    requires forall k :: 0 <= k < |attrs| ==> attrs[k].nodeType == Attribute
    ensures Images(attrs) == AttributeCalls(attrs)
  {
    if attrs != [] {
      AttributeImages(attrs[1..]);
      assert AttributeCalls(attrs) == [AttributeCall(attrs[0])] + AttributeCalls(attrs[1..]);
    }
  }

  /** Expand leaves a leading run of attributes in place. */
  lemma {:induction false} ExpandAttributes(attrs: seq<XmlTokenEntry>, y: seq<XmlTokenEntry>)
    requires forall k :: 0 <= k < |attrs| ==> attrs[k].nodeType == Attribute
    ensures Expand(attrs + y) == attrs + Expand(y)
  {
    if attrs == [] {
      AppendEmpty(y);
      AppendEmpty(Expand(y));
    } else {
      DropAppend(attrs, y, 1);
      ExpandAttributes(attrs[1..], y);
      HeadTail(attrs);
      AppendAssoc([attrs[0]], attrs[1..], Expand(y));
    }
  }

  /** An entry list split after its first entry's owned attributes. */
  lemma SplitOwned(es: seq<XmlTokenEntry>)
    requires es != []
    ensures var m := AttributeRun(es[1..]);
      && es[1..] == es[1..][..m] + es[1..][m..]
      && es == [es[0]] + es[1..][..m] + es[1..][m..]
      && es[1 + m..] == es[1..][m..]
      && (es[1..][m..] == [] || es[1..][m..][0].nodeType != Attribute)
  {
    var m := AttributeRun(es[1..]);
    TakeDrop(es[1..], m);
    HeadTail(es);
    AppendAssoc([es[0]], es[1..][..m], es[1..][m..]);
    DropDrop(es, 1, m);
  }

  /** The step over an Element followed by exactly the attributes it owns. */
  lemma StepOwned(e: XmlTokenEntry, attrs: seq<XmlTokenEntry>, y: seq<XmlTokenEntry>, target: Exclusion, st: State)
    requires e.nodeType == Element
    requires forall k :: 0 <= k < |attrs| ==> attrs[k].nodeType == Attribute
    requires y == [] || y[0].nodeType != Attribute
    ensures ([e] + attrs + y)[1 + |attrs|..] == y
    ensures var entered := Open(target, e, st);
      var written := if entered.including then [StartCall(e)] + AttributeCalls(attrs) else [];
      Step([e] + attrs + y, target, st) ==
        if e.isEmptyElement then Progress(written + Close(entered).calls, 1 + |attrs|, Close(entered).state)
        else Progress(written, 1 + |attrs|, entered)
  {
    var z := [e] + attrs + y;
    AppendAssoc([e], attrs, y);
    ConsTail(e, attrs + y);
    DropPrefix([e] + attrs, y);
    AttributeRunAppend(attrs, y);
    DropPrefix(attrs, y);
    assert AttributeRun(attrs) == |attrs|;
  }

  /** What follows a step over `es` is, in `Expand(es)`, the expansion of the rest. */
  ghost function AfterStep(es: seq<XmlTokenEntry>, target: Exclusion, st: State): Emission
    requires es != []
  {
    var p := Step(es, target, st);
    var r := Run(Expand(es[p.consumed..]), target, p.state);
    Emission(p.calls + r.calls, r.state)
  }

  /** The expansion of a self-closing element: the element marked open, its attributes,
      its explicit end, then the expansion of the rest. */
  lemma ExpandSelfClosing(es: seq<XmlTokenEntry>)
    requires es != [] && es[0].nodeType == Element && es[0].isEmptyElement
    ensures var m := AttributeRun(es[1..]);
      Expand(es) == [es[0].(isEmptyElement := false)] + es[1..][..m] + ([EndOf(es[0])] + Expand(es[1..][m..]))
  {
    var m := AttributeRun(es[1..]);
    AppendAssoc([es[0].(isEmptyElement := false)] + es[1..][..m], [EndOf(es[0])], Expand(es[1..][m..]));
  }

  /** An explicit end entry, then the expansion of what follows, from the state the
      element's start left. */
  lemma RunEndThenRest(e: XmlTokenEntry, rest: seq<XmlTokenEntry>, target: Exclusion, entered: State)
    ensures var closed := Close(entered);
      var r := Run(Expand(rest), target, closed.state);
      Run([EndOf(e)] + Expand(rest), target, entered) == Emission(closed.calls + r.calls, r.state)
  {
    var tail := [EndOf(e)] + Expand(rest);
    ConsTail(EndOf(e), Expand(rest));
    RunUnfold(tail, target, entered);
  }

  lemma ExpandStepSelfClosing(es: seq<XmlTokenEntry>, target: Exclusion, st: State)
    requires es != [] && es[0].nodeType == Element && es[0].isEmptyElement
    ensures Run(Expand(es), target, st) == AfterStep(es, target, st)
  {
    var e := es[0];
    var open := e.(isEmptyElement := false);
    var m := AttributeRun(es[1..]);
    var attrs := es[1..][..m];
    var rest := es[1..][m..];
    var entered := Open(target, e, st);
    var closed := Close(entered);
    var written := if entered.including then [StartCall(e)] + AttributeCalls(attrs) else [];
    SplitOwned(es);
    StepOwned(e, attrs, rest, target, st);
    var tail := [EndOf(e)] + Expand(rest);
    ExpandSelfClosing(es);
    StepOwned(open, attrs, tail, target, st);
    assert Open(target, open, st) == entered;
    RunUnfold([open] + attrs + tail, target, st);
    RunEndThenRest(e, rest, target, entered);
    var r := Run(Expand(rest), target, closed.state);
    AppendAssoc(written, closed.calls, r.calls);
  }

  lemma ExpandStepElement(es: seq<XmlTokenEntry>, target: Exclusion, st: State)
    requires es != [] && es[0].nodeType == Element && !es[0].isEmptyElement
    ensures Run(Expand(es), target, st) == AfterStep(es, target, st)
  {
    var e := es[0];
    var m := AttributeRun(es[1..]);
    var attrs := es[1..][..m];
    var rest := es[1..][m..];
    SplitOwned(es);
    StepOwned(e, attrs, rest, target, st);
    ExpandAttributes(attrs, rest);
    AppendAssoc([e], attrs, Expand(rest));
    StepOwned(e, attrs, Expand(rest), target, st);
    RunUnfold([e] + attrs + Expand(rest), target, st);
  }

  lemma ExpandStepOther(es: seq<XmlTokenEntry>, target: Exclusion, st: State)
    requires es != [] && es[0].nodeType != Element
    ensures Run(Expand(es), target, st) == AfterStep(es, target, st)
  {
    ConsTail(es[0], Expand(es[1..]));
    RunUnfold([es[0]] + Expand(es[1..]), target, st);
  }

  /** A self-closing element replays exactly like an explicit Element/EndElement pair at
      the same depth: the same calls and the same state, excluded or not. */
  lemma {:induction false} SelfClosingEquivalence(es: seq<XmlTokenEntry>, target: Exclusion, st: State)
    ensures Run(Expand(es), target, st) == Run(es, target, st)
    decreases |es|
  {
    if es != [] {
      var p := Step(es, target, st);
      if es[0].nodeType != Element {
        ExpandStepOther(es, target, st);
      } else if es[0].isEmptyElement {
        ExpandStepSelfClosing(es, target, st);
      } else {
        ExpandStepElement(es, target, st);
      }
      SelfClosingEquivalence(es[p.consumed..], target, p.state);
      RunUnfold(es, target, st);
    }
  }

  lemma {:induction false} ExpandKeepsChained(es: seq<XmlTokenEntry>)
    requires Chained(es)
    ensures Chained(Expand(es))
    decreases |es|
  {
    if es != [] {
      if es[0].nodeType == Element && es[0].isEmptyElement {
        var m := AttributeRun(es[1..]);
        SplitOwned(es);
        ExpandKeepsChained(es[1..][m..]);
        SelfClosingChained(es);
      } else {
        SuffixChained(es);
        ExpandKeepsChained(es[1..]);
        ChainedConcat([es[0]], Expand(es[1..]));
      }
    }
  }

  lemma SuffixChained(es: seq<XmlTokenEntry>)
    requires es != [] && Chained(es)
    ensures Chained(es[1..])
  {
    var s := es[1..];
    forall k | 1 <= k < |s| && s[k].nodeType == Attribute
      ensures s[k - 1].nodeType == Element || s[k - 1].nodeType == Attribute
    {
      assert s[k] == es[k + 1] && s[k - 1] == es[k];
    }
  }

  lemma SelfClosingChained(es: seq<XmlTokenEntry>)
    requires es != [] && es[0].nodeType == Element && es[0].isEmptyElement
    requires Chained(Expand(es[1..][AttributeRun(es[1..])..]))
    ensures Chained(Expand(es))
  {
    var m := AttributeRun(es[1..]);
    var rest := es[1..][m..];
    var head := [es[0].(isEmptyElement := false)] + es[1..][..m] + [EndOf(es[0])];
    assert Chained(head);
    ChainedConcat(head, Expand(rest));
  }

  /** Two chained lists stay chained side by side when the second does not begin with an
      attribute, or the first ends with an Element or an Attribute. */
  lemma ChainedConcat(a: seq<XmlTokenEntry>, b: seq<XmlTokenEntry>)
    requires Chained(a) && Chained(b)
    requires b == [] || b[0].nodeType != Attribute || (a != [] && a[|a| - 1].nodeType in {Element, Attribute})
    ensures Chained(a + b)
  {
    var x := a + b;
    forall k | 1 <= k < |x| && x[k].nodeType == Attribute
      ensures x[k - 1].nodeType == Element || x[k - 1].nodeType == Attribute
    {
      if k > |a| {
        assert x[k] == b[k - |a|] && x[k - 1] == b[k - 1 - |a|];
      }
    }
  }

  lemma NoSelfClosingAppend(a: seq<XmlTokenEntry>, b: seq<XmlTokenEntry>)
    requires NoSelfClosing(a) && NoSelfClosing(b)
    ensures NoSelfClosing(a + b)
  {
    forall k | 0 <= k < |a + b|
      ensures !((a + b)[k].nodeType == Element && (a + b)[k].isEmptyElement)
    {
      if k < |a| {
        assert (a + b)[k] == a[k];
      } else {
        assert (a + b)[k] == b[k - |a|];
      }
    }
  }

  lemma NoMatchAppend(target: Exclusion, a: seq<XmlTokenEntry>, b: seq<XmlTokenEntry>)
    requires NoMatch(target, a) && NoMatch(target, b)
    ensures NoMatch(target, a + b)
  {
    forall k | 0 <= k < |a + b| && (a + b)[k].nodeType == Element
      ensures !NameMatches(target, (a + b)[k])
    {
      if k < |a| {
        assert (a + b)[k] == a[k];
      } else {
        assert (a + b)[k] == b[k - |a|];
      }
    }
  }

  lemma HeadNoSelfClosing(es: seq<XmlTokenEntry>)
    requires es != []
    ensures NoSelfClosing(ExpandedHead(es))
  {
    var m := AttributeRun(es[1..]);
    var attrs := es[1..][..m];
    assert NoSelfClosing(attrs);
    NoSelfClosingAppend([es[0].(isEmptyElement := false)], attrs);
    NoSelfClosingAppend([es[0].(isEmptyElement := false)] + attrs, [EndOf(es[0])]);
  }

  lemma HeadNoMatch(es: seq<XmlTokenEntry>, target: Exclusion)
    requires es != [] && NoMatch(target, es)
    ensures NoMatch(target, ExpandedHead(es))
  {
    var m := AttributeRun(es[1..]);
    var attrs := es[1..][..m];
    assert NoMatch(target, [es[0].(isEmptyElement := false)]) by {
      assert es[0].(isEmptyElement := false).localName == es[0].localName;
    }
    NoMatchAppend(target, [es[0].(isEmptyElement := false)], attrs);
    NoMatchAppend(target, [es[0].(isEmptyElement := false)] + attrs, [EndOf(es[0])]);
  }

  lemma {:induction false} ExpandRemovesSelfClosing(es: seq<XmlTokenEntry>)
    ensures NoSelfClosing(Expand(es))
    decreases |es|
  {
    if es != [] {
      if es[0].nodeType == Element && es[0].isEmptyElement {
        var m := AttributeRun(es[1..]);
        ExpandRemovesSelfClosing(es[1..][m..]);
        HeadNoSelfClosing(es);
        NoSelfClosingAppend(ExpandedHead(es), Expand(es[1..][m..]));
      } else {
        ExpandRemovesSelfClosing(es[1..]);
        NoSelfClosingAppend([es[0]], Expand(es[1..]));
      }
    }
  }

  lemma {:induction false} ExpandKeepsNoMatch(es: seq<XmlTokenEntry>, target: Exclusion)
    requires NoMatch(target, es)
    ensures NoMatch(target, Expand(es))
    decreases |es|
  {
    if es != [] {
      if es[0].nodeType == Element && es[0].isEmptyElement {
        var m := AttributeRun(es[1..]);
        var rest := es[1..][m..];
        assert NoMatch(target, rest) by {
          forall k | 0 <= k < |rest| && rest[k].nodeType == Element
            ensures !NameMatches(target, rest[k])
          {
            assert rest[k] == es[1 + m + k];
          }
        }
        ExpandKeepsNoMatch(rest, target);
        HeadNoMatch(es, target);
        NoMatchAppend(target, ExpandedHead(es), Expand(rest));
      } else {
        ExpandKeepsNoMatch(es[1..], target);
        NoMatchAppend(target, [es[0]], Expand(es[1..]));
      }
    }
  }

  /** One step over an unmatched entry that is not self-closing, while including, writes
      the images of the entries it consumed and stays including; with attributes chained,
      what remains does not begin with an attribute. */
  lemma UnmatchedStep(es: seq<XmlTokenEntry>, target: Exclusion, st: State)
    requires st.including && es != [] && es[0].nodeType != Attribute
    requires es[0].nodeType == Element ==> !es[0].isEmptyElement && !NameMatches(target, es[0])
    requires Chained(es)
    ensures var p := Step(es, target, st);
      && p.calls == Images(es[..p.consumed])
      && p.state.including
      && (es[p.consumed..] == [] || es[p.consumed..][0].nodeType != Attribute)
  {
    var p := Step(es, target, st);
    var n := p.consumed;
    var attrs := es[1..][..n - 1];
    TakeSplit(es, 1, n - 1);
    assert es[..1] == [es[0]];
    ImagesCons(es[0], attrs);
    if es[0].nodeType == Element {
      AttributeImages(attrs);
    } else {
      assert attrs == [];
    }
  }

  lemma ImagesCons(x: XmlTokenEntry, rest: seq<XmlTokenEntry>)
    ensures Images([x] + rest) == Image(x) + Images(rest)
  {
    ConsTail(x, rest);
  }

  lemma SuffixUnmatched(es: seq<XmlTokenEntry>, n: nat, target: Exclusion)
    requires n <= |es| && NoSelfClosing(es) && Chained(es) && NoMatch(target, es)
    ensures NoSelfClosing(es[n..]) && Chained(es[n..]) && NoMatch(target, es[n..])
  {
    var s := es[n..];
    forall k | 1 <= k < |s| && s[k].nodeType == Attribute
      ensures s[k - 1].nodeType == Element || s[k - 1].nodeType == Attribute
    {
      assert s[k] == es[n + k] && s[k - 1] == es[n + k - 1];
    }
  }

  /** With no self-closing elements and no element the target matches, a replay writes
      the image of every token, in order, and never leaves the including mode. */
  lemma {:induction false} UnmatchedRunWritesImages(es: seq<XmlTokenEntry>, target: Exclusion, st: State)
    requires st.including
    requires NoSelfClosing(es) && Chained(es) && NoMatch(target, es)
    requires es == [] || es[0].nodeType != Attribute
    ensures Run(es, target, st).calls == Images(es)
    ensures Run(es, target, st).state.including
    decreases |es|
  {
    if es != [] {
      var p := Step(es, target, st);
      var n := p.consumed;
      UnmatchedStep(es, target, st);
      SuffixUnmatched(es, n, target);
      UnmatchedRunWritesImages(es[n..], target, p.state);
      RunUnfold(es, target, st);
      TakeDrop(es, n);
      ImagesAppend(es[..n], es[n..]);
    }
  }

  /** With nothing to exclude, replaying a captured list reproduces every token's own call
      in order, a self-closing element as a start call followed, after its attributes, by
      an end call. */
  lemma NoExclusionRoundTrip(es: seq<XmlTokenEntry>, target: Exclusion)
    requires es != [] && es[0].nodeType != Attribute
    requires Chained(es) && NoMatch(target, es)
    ensures Replay(es, target) == Success(Images(Expand(es)))
  {
    SelfClosingEquivalence(es, target, Initial);
    ExpandRemovesSelfClosing(es);
    ExpandKeepsChained(es);
    ExpandKeepsNoMatch(es, target);
    UnmatchedRunWritesImages(Expand(es), target, Initial);
  }

  /** With no exclusion configured at all, every captured list (non-empty, attributes
      chained after their element) replays to its own tokens' calls. */
  lemma NoExclusionReplay(es: seq<XmlTokenEntry>)
    requires es != [] && es[0].nodeType != Attribute && Chained(es)
    ensures Replay(es, NoExclusion) == Success(Images(Expand(es)))
  {
    NoExclusionRoundTrip(es, NoExclusion);
  }
}
