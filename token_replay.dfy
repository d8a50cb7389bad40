/** A pure reference definition of one replay pass of XmlTokenStreamWriter.WriteTo: the
    three loop locals, what one entry (with the attributes it owns) writes and how it
    moves the state, and the whole pass as the concatenation of those steps. */
module TokenReplay {
  import opened Wrappers
  import opened XmlTokens

  /** The locals of the replay loop, kept exactly as the source keeps them. */
  datatype State = State(depth: int, including: bool, recordedDepth: int)

  /** The state before the first entry: depth 0, including, no recorded depth. */
  const Initial: State := State(0, true, -1)

  /** The calls written by a stretch of entries and the state after it. */
  datatype Emission = Emission(calls: seq<WriteCall>, state: State)

  /** The calls written by one step, how many entries it consumed and the state after it. */
  datatype Progress = Progress(calls: seq<WriteCall>, consumed: nat, state: State)

  /** The state-machine invariant: excluding exactly when a depth is recorded, and a
      recorded depth lies between the root level and the current depth. */
  predicate Consistent(st: State)
  {
    && st.depth >= 0
    && (st.including <==> st.recordedDepth == -1)
    && (!st.including ==> 1 <= st.recordedDepth <= st.depth)
  }

  predicate NameMatches(target: Exclusion, e: XmlTokenEntry)
  {
    target.element == Some(e.localName) && target.namespaceUri == Some(e.namespaceUri)
  }

  /** Whether an Element entry, whose depth after the increment is `depth`, starts an
      exclusion region in state `st`. */
  predicate StartsExclusion(target: Exclusion, e: XmlTokenEntry, st: State, depth: int)
  {
    && st.including
    && (target.parentDepth.None? || target.parentDepth == Some(depth - 1))
    && NameMatches(target, e)
  }

  /** The Element case up to its attributes: the depth goes up, and a region may start. */
  function Open(target: Exclusion, e: XmlTokenEntry, st: State): State
  {
    var depth := st.depth + 1;
    if StartsExclusion(target, e, st, depth) then State(depth, false, depth)
    else st.(depth := depth)
  }

  /** The EndElement case (also reached from a self-closing Element). */
  function Close(st: State): Emission
  {
    if st.including then Emission([WriteEndElement], st.(depth := st.depth - 1))
    else if st.recordedDepth == st.depth then Emission([], State(st.depth - 1, true, -1))
    else Emission([], st.(depth := st.depth - 1))
  }

  /** The single write a content entry produces when included; nothing for every other kind. */
  function ContentCalls(e: XmlTokenEntry): seq<WriteCall>
  {
    match e.nodeType
    case CData => [WriteCData(e.value)]
    case Comment => [WriteComment(e.value)]
    case Text => [WriteString(e.value)]
    case SignificantWhitespace | Whitespace => [WriteWhitespace(e.value)]
    case _ => []
  }

  function StartCall(e: XmlTokenEntry): WriteCall
  {
    WriteStartElement(e.prefix, e.localName, e.namespaceUri)
  }

  function AttributeCall(e: XmlTokenEntry): WriteCall
  {
    WriteAttributeString(e.prefix, e.localName, e.namespaceUri, e.value)
  }

  /** The attribute writes for owned attributes, in order. */
  function AttributeCalls(attrs: seq<XmlTokenEntry>): seq<WriteCall>
  {
    if attrs == [] then [] else [AttributeCall(attrs[0])] + AttributeCalls(attrs[1..])
  }

  /** The length of the run of Attribute entries at the front of `es`: the entries an
      Element owns when `es` is what follows it. */
  function AttributeRun(es: seq<XmlTokenEntry>): (n: nat)
    ensures n <= |es|
    ensures forall k :: 0 <= k < n ==> es[k].nodeType == Attribute
    ensures n == |es| || es[n].nodeType != Attribute
  {
    if es == [] || es[0].nodeType != Attribute then 0 else 1 + AttributeRun(es[1..])
  }

  /** The net change of depth an entry causes: an Element that is not self-closing opens
      a level, an EndElement closes one, everything else (a self-closing Element too)
      leaves it. */
  function Delta(e: XmlTokenEntry): int
  {
    if e.nodeType == Element && !e.isEmptyElement then 1
    else if e.nodeType == EndElement then -1
    else 0
  }

  function Balance(es: seq<XmlTokenEntry>): int
  {
    if es == [] then 0 else Delta(es[0]) + Balance(es[1..])
  }

  /** The Element case, given the writes of the attributes the element owns: the start
      tag and the attributes are written only while including after the region check, and
      a self-closing element then goes through the EndElement case at once. */
  function ElementStep(e: XmlTokenEntry, attributeCalls: seq<WriteCall>, target: Exclusion, st: State): Emission
  {
    var entered := Open(target, e, st);
    var written := if entered.including then [StartCall(e)] + attributeCalls else [];
    if e.isEmptyElement then
      var closed := Close(entered);
      Emission(written + closed.calls, closed.state)
    else
      Emission(written, entered)
  }

  /** The case for an entry that is not an Element. */
  function EntryStep(e: XmlTokenEntry, st: State): Emission
  {
    if e.nodeType == EndElement then Close(st)
    else Emission(if st.including then ContentCalls(e) else [], st)
  }

  /** One pass of the replay loop body, on the entry at the front of `es`: an Element
      consumes the attributes it owns as well. */
  function Step(es: seq<XmlTokenEntry>, target: Exclusion, st: State): (p: Progress)
    requires es != []
    ensures 1 <= p.consumed <= |es|
  {
    if es[0].nodeType == Element then
      var n := AttributeRun(es[1..]);
      var o := ElementStep(es[0], AttributeCalls(es[1..][..n]), target, st);
      Progress(o.calls, 1 + n, o.state)
    else
      var o := EntryStep(es[0], st);
      Progress(o.calls, 1, o.state)
  }

  /** The whole replay of `es` from state `st`, step after step. */
  function Run(es: seq<XmlTokenEntry>, target: Exclusion, st: State): Emission
    decreases |es|
  {
    if es == [] then Emission([], st)
    else
      var p := Step(es, target, st);
      var rest := Run(es[p.consumed..], target, p.state);
      Emission(p.calls + rest.calls, rest.state)
  }

  /** What WriteTo writes for a given entry list (with a writer present): an error for an
      empty buffer, else the calls of the whole pass. */
  function Replay(es: seq<XmlTokenEntry>, target: Exclusion): (r: Result<seq<WriteCall>, Error>)
    ensures r.Failure? <==> es == []
    ensures r.Failure? ==> r.error == InvalidOperation(BufferEmpty)
  {
    if es == [] then Failure(InvalidOperation(BufferEmpty))
    else Success(Run(es, target, Initial).calls)
  }
}
