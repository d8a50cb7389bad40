/** XmlTokenStreamWriter itself: a cursor over a captured entry list and the WriteTo pass
    that replays the entries into a writer, leaving out at most the subtrees the exclusion
    target names. WriteTo is proved to make exactly the calls of the reference pass
    TokenReplay.Replay. */
module TokenStream {
  import opened Wrappers
  import opened XmlTokens
  import opened TokenReplay
  import opened CursorReplay
  import opened Sequences

  /** After `written`, the rest of the pass from the cursor at `done` in state `st`
      completes the trace to `expected`. */
  predicate Pending(expected: seq<WriteCall>, written: seq<WriteCall>, es: seq<XmlTokenEntry>,
                    done: nat, target: Exclusion, st: State)
  {
    done <= |es| && expected == written + RunFrom(es, done, target, st).calls
  }

  /** Before the first step the whole reference pass is pending. */
  lemma PendingStart(written: seq<WriteCall>, es: seq<XmlTokenEntry>, target: Exclusion)
    requires es != []
    ensures Replay(es, target).Success?
    ensures Pending(written + Replay(es, target).value, written, es, 0, target, Initial)
  {
    RunFromBridge(es, 0, target, Initial);
    assert es[0..] == es;
  }

  /** Taking one step keeps the rest of the trace pending. */
  lemma PendingStep(expected: seq<WriteCall>, before: seq<WriteCall>, after: seq<WriteCall>,
                    es: seq<XmlTokenEntry>, done: nat, target: Exclusion, st: State, next: State)
    requires done < |es| && Pending(expected, before, es, done, target, st)
    requires after == before + StepFrom(es, done, target, st).calls
    requires next == StepFrom(es, done, target, st).state
    ensures Pending(expected, after, es, done + StepFrom(es, done, target, st).consumed, target, next)
  {
    var p := StepFrom(es, done, target, st);
    AppendAssoc(before, p.calls, RunFrom(es, done + p.consumed, target, p.state).calls);
  }

  /** Once every entry is consumed nothing is pending. */
  lemma PendingDone(expected: seq<WriteCall>, written: seq<WriteCall>, es: seq<XmlTokenEntry>,
                    target: Exclusion, st: State)
    requires Pending(expected, written, es, |es|, target, st)
    ensures expected == written
  {
    AppendEmpty(written);
  }

  /** An XmlDictionaryWriter reduced to the calls made on it, in order. */
  class TraceWriter {
    var calls: seq<WriteCall>

    constructor ()
      ensures calls == []
    {
      calls := [];
    }

    method WriteStartElement(prefix: string, localName: string, namespaceUri: string)
      modifies this
      ensures calls == old(calls) + [XmlTokens.WriteStartElement(prefix, localName, namespaceUri)]
    {
      calls := calls + [XmlTokens.WriteStartElement(prefix, localName, namespaceUri)];
    }

    method WriteAttributeString(prefix: string, localName: string, namespaceUri: string, value: string)
      modifies this
      ensures calls == old(calls) + [XmlTokens.WriteAttributeString(prefix, localName, namespaceUri, value)]
    {
      calls := calls + [XmlTokens.WriteAttributeString(prefix, localName, namespaceUri, value)];
    }

    method WriteEndElement()
      modifies this
      ensures calls == old(calls) + [XmlTokens.WriteEndElement]
    {
      calls := calls + [XmlTokens.WriteEndElement];
    }

    method WriteCData(text: string)
      modifies this
      ensures calls == old(calls) + [XmlTokens.WriteCData(text)]
    {
      calls := calls + [XmlTokens.WriteCData(text)];
    }

    method WriteComment(text: string)
      modifies this
      ensures calls == old(calls) + [XmlTokens.WriteComment(text)]
    {
      calls := calls + [XmlTokens.WriteComment(text)];
    }

    method WriteString(text: string)
      modifies this
      ensures calls == old(calls) + [XmlTokens.WriteString(text)]
    {
      calls := calls + [XmlTokens.WriteString(text)];
    }

    method WriteWhitespace(text: string)
      modifies this
      ensures calls == old(calls) + [XmlTokens.WriteWhitespace(text)]
    {
      calls := calls + [XmlTokens.WriteWhitespace(text)];
    }
  }

  class XmlTokenStreamWriter {
    const entries: seq<XmlTokenEntry>
    const count: int
    var position: int
    const excludedElement: Option<string>
    const excludedElementDepth: Option<int>
    const excludedElementNamespace: Option<string>

    /** The cursor is on an entry, or at 0 on an empty list. */
    predicate Valid()
      reads this
    {
      && count == |entries|
      && 0 <= position
      && (position < count || position == 0)
    }

    function Target(): Exclusion
    {
      Exclusion(excludedElement, excludedElementDepth, excludedElementNamespace)
    }

    constructor (entries: seq<XmlTokenEntry>, excludedElement: Option<string>,
                 excludedElementDepth: Option<int>, excludedElementNamespace: Option<string>)
      ensures Valid()
      ensures this.entries == entries && count == |entries| && position == 0
      ensures Target() == Exclusion(excludedElement, excludedElementDepth, excludedElementNamespace)
    {
      this.entries := entries;
      count := |entries|;
      this.excludedElement := excludedElement;
      this.excludedElementDepth := excludedElementDepth;
      this.excludedElementNamespace := excludedElementNamespace;
      position := 0;
    }

    // The projections of the entry under the cursor.

    function NodeType(): XmlNodeType
      reads this
      requires Valid() && position < count
    {
      entries[position].nodeType
    }

    function IsEmptyElement(): bool
      reads this
      requires Valid() && position < count
    {
      entries[position].isEmptyElement
    }

    function Prefix(): string
      reads this
      requires Valid() && position < count
    {
      entries[position].prefix
    }

    function LocalName(): string
      reads this
      requires Valid() && position < count
    {
      entries[position].localName
    }

    function NamespaceUri(): string
      reads this
      requires Valid() && position < count
    {
      entries[position].namespaceUri
    }

    function Value(): string
      reads this
      requires Valid() && position < count
    {
      entries[position].value
    }

    /** Whether an Attribute entry directly follows the cursor. */
    predicate AttributeFollows()
      reads this
      requires Valid()
    {
      position < count - 1 && entries[position + 1].nodeType == Attribute
    }

    method MoveToFirst() returns (nonEmpty: bool)
      requires Valid()
      modifies this
      ensures Valid() && position == 0
      ensures nonEmpty <==> count > 0
    {
      position := 0;
      nonEmpty := count > 0;
    }

    method MoveToNext() returns (moved: bool)
      requires Valid()
      modifies this
      ensures Valid()
      ensures moved <==> old(position) < count - 1
      ensures position == if moved then old(position) + 1 else old(position)
    {
      if position < count - 1 {
        position := position + 1;
        moved := true;
      } else {
        moved := false;
      }
    }

    method MoveToFirstAttribute() returns (moved: bool)
      requires Valid()
      modifies this
      ensures Valid()
      ensures moved <==> old(AttributeFollows())
      ensures position == if moved then old(position) + 1 else old(position)
    {
      if position < count - 1 && entries[position + 1].nodeType == Attribute {
        position := position + 1;
        moved := true;
      } else {
        moved := false;
      }
    }

    method MoveToNextAttribute() returns (moved: bool)
      requires Valid()
      modifies this
      ensures Valid()
      ensures moved <==> old(AttributeFollows())
      ensures position == if moved then old(position) + 1 else old(position)
    {
      if position < count - 1 && entries[position + 1].nodeType == Attribute {
        position := position + 1;
        moved := true;
      } else {
        moved := false;
      }
    }

    /** The walk over the attributes the current Element owns (MoveToFirstAttribute, then
        MoveToNextAttribute until it fails): each is written while including, and the
        cursor ends on the last of them. */
    method WriteAttributes(writer: TraceWriter, including: bool)
      requires Valid() && position < count
      modifies this, writer
      ensures Valid()
      ensures position == old(position) + OwnedCount(entries, old(position) + 1)
      ensures writer.calls == old(writer.calls) +
        if including then OwnedCalls(entries, old(position) + 1, position + 1) else []
    {
      ghost var start := position;
      ghost var next := start + 1;
      ghost var initial := writer.calls;
      var inAttributes := MoveToFirstAttribute();
      while inAttributes
        invariant Valid() && start <= position < count
        invariant inAttributes ==> next == position && start < position && entries[position].nodeType == Attribute
        invariant !inAttributes ==> next == position + 1 && OwnedCount(entries, next) == 0
        invariant OwnedCount(entries, start + 1) == (next - start - 1) + OwnedCount(entries, next)
        invariant including ==> writer.calls == initial + OwnedCalls(entries, start + 1, next)
        invariant !including ==> writer.calls == initial
        decreases count - position + (if inAttributes then 1 else 0)
      {
        if including {
          AppendAssoc(initial, OwnedCalls(entries, start + 1, next), [AttributeCall(entries[next])]);
          writer.WriteAttributeString(Prefix(), LocalName(), NamespaceUri(), Value());
        }
        next := next + 1;
        inAttributes := MoveToNextAttribute();
      }
    }

    /** The Element case up to the self-closing check: the depth goes up, a region starts
        if this element is the target, and the start tag and owned attributes are written
        unless excluding. */
    method WriteElementStart(writer: TraceWriter, depth: int, including: bool, recordedDepth: int)
      returns (newDepth: int, nowIncluding: bool, newRecordedDepth: int)
      requires Valid() && position < count && NodeType() == Element
      modifies this, writer
      ensures Valid()
      ensures var e := entries[old(position)];
        var entered := Open(Target(), e, State(depth, including, recordedDepth));
        && State(newDepth, nowIncluding, newRecordedDepth) == entered
        && position == old(position) + OwnedCount(entries, old(position) + 1)
        && writer.calls == old(writer.calls) +
             if entered.including then [StartCall(e)] + OwnedCalls(entries, old(position) + 1, position + 1) else []
    {
      newDepth, nowIncluding, newRecordedDepth := depth + 1, including, recordedDepth;
      if nowIncluding
         && (excludedElementDepth.None? || excludedElementDepth == Some(newDepth - 1))
         && excludedElement == Some(LocalName())
         && excludedElementNamespace == Some(NamespaceUri())
      {
        nowIncluding := false;
        newRecordedDepth := newDepth;
      }
      if nowIncluding {
        writer.WriteStartElement(Prefix(), LocalName(), NamespaceUri());
      }
      WriteAttributes(writer, nowIncluding);
      if nowIncluding {
        AppendAssoc(old(writer.calls), [StartCall(entries[old(position)])],
                    OwnedCalls(entries, old(position) + 1, position + 1));
      }
    }

    /** The EndElement case, also entered from a self-closing Element: the end tag is
        written while including, a region whose recorded depth is the current one closes,
        and the depth goes down in every case. */
    method WriteElementEnd(writer: TraceWriter, depth: int, including: bool, recordedDepth: int)
      returns (newDepth: int, nowIncluding: bool, newRecordedDepth: int)
      modifies writer
      ensures var closed := Close(State(depth, including, recordedDepth));
        && State(newDepth, nowIncluding, newRecordedDepth) == closed.state
        && writer.calls == old(writer.calls) + closed.calls
    {
      nowIncluding, newRecordedDepth := including, recordedDepth;
      if nowIncluding {
        writer.WriteEndElement();
      } else if newRecordedDepth == depth {
        nowIncluding := true;
        newRecordedDepth := -1;
      }
      newDepth := depth - 1;
    }

    /** The cases for content entries: one write of the value while including; nothing for
        DocumentType, XmlDeclaration and the kinds without a case. */
    method WriteContent(writer: TraceWriter, including: bool)
      requires Valid() && position < count
      modifies writer
      ensures writer.calls == old(writer.calls) + if including then ContentCalls(entries[position]) else []
    {
      match NodeType() {
        case CData =>
          if including {
            writer.WriteCData(Value());
          }
        case Comment =>
          if including {
            writer.WriteComment(Value());
          }
        case Text =>
          if including {
            writer.WriteString(Value());
          }
        case SignificantWhitespace | Whitespace =>
          if including {
            writer.WriteWhitespace(Value());
          }
        case _ =>
      }
    }

    /** The switch on the current entry's node type: one pass of the replay loop's body,
        which leaves the cursor on the last entry it consumed. */
    method WriteCurrent(writer: TraceWriter, depth: int, including: bool, recordedDepth: int)
      returns (newDepth: int, nowIncluding: bool, newRecordedDepth: int)
      requires Valid() && position < count
      modifies this, writer
      ensures Valid()
      ensures var p := StepFrom(entries, old(position), Target(), State(depth, including, recordedDepth));
        && writer.calls == old(writer.calls) + p.calls
        && State(newDepth, nowIncluding, newRecordedDepth) == p.state
        && position == old(position) + p.consumed - 1
    {
      ghost var target := Target();
      ghost var st := State(depth, including, recordedDepth);
      ghost var e := entries[position];
      match NodeType() {
        case Element =>
          var isEmpty := IsEmptyElement();
          ghost var entered := Open(target, e, st);
          ghost var attrs := OwnedCalls(entries, position + 1, position + 1 + OwnedCount(entries, position + 1));
          ghost var written := if entered.including then [StartCall(e)] + attrs else [];
          newDepth, nowIncluding, newRecordedDepth := WriteElementStart(writer, depth, including, recordedDepth);
          if isEmpty {
            // the goto into the EndElement case
            ghost var closed := Close(entered);
            newDepth, nowIncluding, newRecordedDepth := WriteElementEnd(writer, newDepth, nowIncluding, newRecordedDepth);
            AppendAssoc(old(writer.calls), written, closed.calls);
          }
        case EndElement =>
          newDepth, nowIncluding, newRecordedDepth := WriteElementEnd(writer, depth, including, recordedDepth);
        case _ =>
          WriteContent(writer, including);
          newDepth, nowIncluding, newRecordedDepth := depth, including, recordedDepth;
      }
    }

    /** Replays every entry into `writer`: no writer and an empty buffer are reported before
        anything is written; otherwise the writer receives exactly the calls of the
        reference pass and the cursor ends on the last entry. */
    method WriteTo(writer: TraceWriter?) returns (r: Outcome<Error>)
      requires Valid()
      modifies this, writer
      ensures Valid()
      ensures writer == null ==> r == Fail(ArgumentNull("writer")) && position == old(position)
      ensures writer != null ==>
        match Replay(entries, Target())
        case Failure(e) => r == Fail(e) && writer.calls == old(writer.calls) && position == 0
        case Success(calls) => r == Pass && writer.calls == old(writer.calls) + calls && position == count - 1
    {
      if writer == null {
        return Fail(ArgumentNull("writer"));
      }
      var nonEmpty := MoveToFirst();
      if !nonEmpty {
        return Fail(InvalidOperation(BufferEmpty));
      }
      var depth := 0;
      var recordedDepth := -1;
      var including := true;
      ghost var target := Target();
      PendingStart(writer.calls, entries, target);
      ghost var expected := old(writer.calls) + Replay(entries, target).value;
      ghost var done := 0;
      var more := true;
      while more
        invariant Valid()
        invariant more ==> done == position < count
        invariant !more ==> done == count && position == count - 1
        invariant Pending(expected, writer.calls, entries, done, target, State(depth, including, recordedDepth))
        decreases count - done
      {
        ghost var before := writer.calls;
        ghost var st := State(depth, including, recordedDepth);
        ghost var p := StepFrom(entries, done, target, st);
        depth, including, recordedDepth := WriteCurrent(writer, depth, including, recordedDepth);
        PendingStep(expected, before, writer.calls, entries, done, target, st, State(depth, including, recordedDepth));
        more := MoveToNext();
        done := done + p.consumed;
      }
      PendingDone(expected, writer.calls, entries, target, State(depth, including, recordedDepth));
      return Pass;
    }
  }
}
