# XmlTokenStreamWriter, modelled and verified in Dafny

`XmlTokenStreamWriter` (Microsoft.IdentityModel.Xml) replays a captured, immutable list of
XML token entries into an `XmlDictionaryWriter`. While it replays, it can leave out an
element subtree: the element named by a local name and a namespace, optionally only when
its parent sits at a given depth. This is how an enveloped XML-DSig `Signature` element is
kept out of the bytes that are signed (the enveloped-signature transform, section 6.6.4 of
the W3C XML-Signature Syntax and Processing recommendation).

The model has two layers.

- **The class** (`token_stream_writer.dfy`, module `TokenStream`).
  - `XmlTokenStreamWriter` has the source's fields: the entry list, its count, the cursor
    `position`, and the three exclusion settings.
  - It has the four cursor moves (`MoveToFirst`, `MoveToNext`, `MoveToFirstAttribute`,
    `MoveToNextAttribute`) and the current-entry projections.
  - `WriteTo` is imperative, as in the source: a `while` loop over `MoveToNext` around the
    switch on the node type, with a nested loop over `MoveToNextAttribute`. It updates the
    locals `depth`, `including` and `recordedDepth` in place. The `goto case
    XmlNodeType.EndElement` of a self-closing element is a second call of the EndElement
    case.
  - The writer is a `TraceWriter` object that records the calls made on it, in order.
- **A pure reference pass** (`token_replay.dfy`, module `TokenReplay`). It states what one
  loop pass writes and how it moves the state (`Step`), and what a whole replay writes
  (`Run`, `Replay`). `WriteTo` is proved to make exactly the calls of `Replay`. The
  properties of the replay are then proved about the reference pass:
  - `replay_properties.dfy`: the start and end rules of an exclusion region, which entries
    write what, the depth balance, the state invariant, and that excluding removes exactly
    the targeted subtree(s);
  - `round_trip.dfy`: with nothing excluded, every written entry comes back as its own
    call, and a self-closing element is replayed like an explicit start/end pair.
- `cursor_replay.dfy` (module `CursorReplay`) reads the same pass through an index into the
  whole list, the way the cursor does. Its bridge lemmas prove that this reading equals the
  reference pass on the suffix.
- `xml_tokens.dfy` holds the entries, the writer calls, the errors and the exclusion target.
- `wrappers.dfy` holds `Option`, `Result` and `Outcome`.
- `sequences.dfy` holds small generic sequence identities the proofs call.

A replay can leave out more than one subtree. A region ends at the EndElement at the
recorded depth (XmlTokenStreamWriter.cs:204-207). `include` is then true again, and a later
matching sibling opens a new region (`ReplayProperties.SeveralRegionsExcluded`).

## Model

| member | source | states |
|---|---|---|
| TokenStream.XmlTokenStreamWriter.constructor | src/Microsoft.IdentityModel.Xml/XmlTokenStreamWriter.cs:44-58 | the writer keeps the entries, their count and the three exclusion settings; the cursor starts at 0 and the cursor invariant holds |
| TokenStream.XmlTokenStreamWriter.NodeType | src/Microsoft.IdentityModel.Xml/XmlTokenStreamWriter.cs:70-73 | reads the node kind of the entry under the cursor; requires the cursor to be on an entry |
| TokenStream.XmlTokenStreamWriter.IsEmptyElement | src/Microsoft.IdentityModel.Xml/XmlTokenStreamWriter.cs:75-78 | reads the self-closing flag of the entry under the cursor; requires the cursor to be on an entry |
| TokenStream.XmlTokenStreamWriter.Prefix | src/Microsoft.IdentityModel.Xml/XmlTokenStreamWriter.cs:80-83 | reads the prefix of the entry under the cursor; requires the cursor to be on an entry |
| TokenStream.XmlTokenStreamWriter.LocalName | src/Microsoft.IdentityModel.Xml/XmlTokenStreamWriter.cs:85-88 | reads the local name of the entry under the cursor; requires the cursor to be on an entry |
| TokenStream.XmlTokenStreamWriter.NamespaceUri | src/Microsoft.IdentityModel.Xml/XmlTokenStreamWriter.cs:90-93 | reads the namespace URI of the entry under the cursor; requires the cursor to be on an entry |
| TokenStream.XmlTokenStreamWriter.Value | src/Microsoft.IdentityModel.Xml/XmlTokenStreamWriter.cs:95-98 | reads the value of the entry under the cursor; requires the cursor to be on an entry |
| TokenStream.XmlTokenStreamWriter.MoveToFirst | src/Microsoft.IdentityModel.Xml/XmlTokenStreamWriter.cs:111-115 | the cursor goes to 0, and the result is true exactly when the list is not empty |
| TokenStream.XmlTokenStreamWriter.MoveToFirstAttribute | src/Microsoft.IdentityModel.Xml/XmlTokenStreamWriter.cs:117-128 | moves exactly when a next entry exists and is an Attribute, then by exactly one; otherwise the cursor is unchanged and the result is false; the cursor stays on an entry |
| TokenStream.XmlTokenStreamWriter.MoveToNext | src/Microsoft.IdentityModel.Xml/XmlTokenStreamWriter.cs:130-138 | moves by exactly one and returns true exactly when position < count - 1; otherwise nothing changes; 0 <= position < count is kept on a non-empty list |
| TokenStream.XmlTokenStreamWriter.MoveToNextAttribute | src/Microsoft.IdentityModel.Xml/XmlTokenStreamWriter.cs:140-151 | the same contract as MoveToFirstAttribute: the two moves behave identically |
| TokenStream.XmlTokenStreamWriter.WriteAttributes | src/Microsoft.IdentityModel.Xml/XmlTokenStreamWriter.cs:183-192 | the attribute walk stops on the last attribute the Element owns; while including it writes one WriteAttributeString per owned attribute, in order, and otherwise nothing |
| TokenStream.XmlTokenStreamWriter.WriteElementStart | src/Microsoft.IdentityModel.Xml/XmlTokenStreamWriter.cs:168-192 | depth goes up by one and a region starts as the reference region check says; the start tag and owned attributes are written exactly when still including |
| TokenStream.XmlTokenStreamWriter.WriteElementEnd | src/Microsoft.IdentityModel.Xml/XmlTokenStreamWriter.cs:199-210 | the EndElement case: the end tag is written only while including, a region whose recorded depth is the current one closes, and depth goes down in every case |
| TokenStream.XmlTokenStreamWriter.WriteContent | src/Microsoft.IdentityModel.Xml/XmlTokenStreamWriter.cs:211-238 | CDATA, Comment, Text and (Significant)Whitespace write their value once while including; every other kind writes nothing |
| TokenStream.XmlTokenStreamWriter.WriteCurrent | src/Microsoft.IdentityModel.Xml/XmlTokenStreamWriter.cs:166-239 | one pass of the switch writes exactly the calls of the reference step, reaches its state, and leaves the cursor on the last entry it consumed |
| TokenStream.XmlTokenStreamWriter.WriteTo | src/Microsoft.IdentityModel.Xml/XmlTokenStreamWriter.cs:153-242 | a null writer fails with an argument-null error and an empty list with InvalidOperation("XmlTokenBufferIsEmpty"), both before any write; otherwise the writer receives exactly the reference replay's calls and the cursor ends on the last entry |
| TokenReplay.Replay | src/Microsoft.IdentityModel.Xml/XmlTokenStreamWriter.cs:158-159 | the replay fails exactly on an empty list, and then with InvalidOperation("XmlTokenBufferIsEmpty") |
| TokenReplay.AttributeRun | src/Microsoft.IdentityModel.Xml/XmlTokenStreamWriter.cs:183-192 | the attributes an Element owns are the longest run of Attribute entries right after it |
| TokenReplay.Step | src/Microsoft.IdentityModel.Xml/XmlTokenStreamWriter.cs:166-239 | one loop pass consumes at least one entry and never more than remain |
| ReplayProperties.StepDropped | src/Microsoft.IdentityModel.Xml/XmlTokenStreamWriter.cs:236-238 | DocumentType, XmlDeclaration and the kinds without a case (a stray Attribute included) write nothing and leave the state as it was |
| ReplayProperties.StepContent | src/Microsoft.IdentityModel.Xml/XmlTokenStreamWriter.cs:211-235 | Text, CDATA, Comment, Whitespace and SignificantWhitespace each write exactly one matching call of their value while including, none otherwise, and leave the state unchanged |
| ReplayProperties.StepOpensRegion | src/Microsoft.IdentityModel.Xml/XmlTokenStreamWriter.cs:170-182 | while including, an Element starts a region exactly when its name and namespace are the target's and the parent-depth constraint is unset or equals depth - 1; a started region records the new depth and writes nothing, else the start tag and all owned attributes are written |
| ReplayProperties.StepWhileExcluding | src/Microsoft.IdentityModel.Xml/XmlTokenStreamWriter.cs:199-208 | while excluding nothing at all is written; a further match does not restart the region or move the recorded depth; including resumes exactly at the EndElement (or self-closing Element) at the recorded depth, which resets recordedDepth to -1 |
| ReplayProperties.StepSelfClosing | src/Microsoft.IdentityModel.Xml/XmlTokenStreamWriter.cs:194-197 | a self-closing Element leaves depth and state unchanged; included it writes start, attributes and end; matched it closes its own region at once and writes nothing |
| ReplayProperties.StepDepth | src/Microsoft.IdentityModel.Xml/XmlTokenStreamWriter.cs:168-210 | one pass moves depth by the balance of the entries it consumed: +1 per Element and -1 per EndElement, whether including or not |
| ReplayProperties.RunDepth | src/Microsoft.IdentityModel.Xml/XmlTokenStreamWriter.cs:164-241 | after a replay, depth is the starting depth plus the number of opened minus closed elements |
| ReplayProperties.StepKeepsConsistent | src/Microsoft.IdentityModel.Xml/XmlTokenStreamWriter.cs:170-209 | a pass keeps the state invariant (including exactly when recordedDepth = -1, and 1 <= recordedDepth <= depth while excluding) as long as depth stays non-negative |
| ReplayProperties.RunKeepsConsistent | src/Microsoft.IdentityModel.Xml/XmlTokenStreamWriter.cs:161-241 | the state invariant holds throughout a replay whose depth never goes below zero |
| ReplayProperties.WellNestedReplayCloses | src/Microsoft.IdentityModel.Xml/XmlTokenStreamWriter.cs:161-241 | a well-nested entry list ends the replay back at depth 0, including, with no recorded depth |
| ReplayProperties.RunAppend | src/Microsoft.IdentityModel.Xml/XmlTokenStreamWriter.cs:164-241 | replaying two lists one after the other (the second not starting with an Attribute) writes the first list's calls followed by the second's from the state the first reached |
| ReplayProperties.ExcludedRun | src/Microsoft.IdentityModel.Xml/XmlTokenStreamWriter.cs:179-208 | while the depth stays at or above the recorded depth, an excluded stretch writes nothing and the region stays open |
| ReplayProperties.ExcludedSubtreeVanishes | src/Microsoft.IdentityModel.Xml/XmlTokenStreamWriter.cs:170-208 | replaying a targeted element subtree from an including state writes nothing and returns to exactly that state |
| ReplayProperties.ExclusionContainment | src/Microsoft.IdentityModel.Xml/XmlTokenStreamWriter.cs:164-241 | excluding a subtree removes exactly that subtree: everything before and after it is written as if it had never been captured |
| ReplayProperties.SeveralRegionsExcluded | src/Microsoft.IdentityModel.Xml/XmlTokenStreamWriter.cs:171-208 | after a region closes, a later matching sibling opens a new one, and both subtrees are left out |
| ReplayProperties.DroppedEntryInvisible | src/Microsoft.IdentityModel.Xml/XmlTokenStreamWriter.cs:236-238 | removing a DocumentType or XmlDeclaration entry that no Attribute follows does not change the list's replay |
| ReplayProperties.EnvelopedSignatureLeftOut | src/Microsoft.IdentityModel.Xml/XmlTokenStreamWriter.cs:153-242 | a document with a self-closing target Signature element replays as the root's start tag and end tag only |
| ReplayRoundTrip.SelfClosingEquivalence | src/Microsoft.IdentityModel.Xml/XmlTokenStreamWriter.cs:194-197 | replaying a self-closing element writes exactly what an explicit start, its attributes and a separate EndElement write, whatever the exclusion state |
| ReplayRoundTrip.UnmatchedRunWritesImages | src/Microsoft.IdentityModel.Xml/XmlTokenStreamWriter.cs:164-241 | while including, with no self-closing Element, no Element matching the target and every Attribute following its element, each written entry yields its own call, in order (DocumentType, XmlDeclaration and kinds without a case none), and the replay stays including |
| ReplayRoundTrip.NoExclusionRoundTrip | src/Microsoft.IdentityModel.Xml/XmlTokenStreamWriter.cs:153-242 | when no Element entry matches the target and every Attribute follows its element, the replay succeeds with one call per written entry, in order (DocumentType, XmlDeclaration and kinds without a case give none), once self-closing elements are written out as start/end pairs |
| ReplayRoundTrip.NoExclusionReplay | src/Microsoft.IdentityModel.Xml/XmlTokenStreamWriter.cs:153-242 | a writer built with no excluded element replays any such list to those per-entry calls |
| CursorReplay.StepFrom | src/Microsoft.IdentityModel.Xml/XmlTokenStreamWriter.cs:166-239 | a pass at cursor i consumes at least one entry and never runs past the end of the list |
| CursorReplay.OwnedCountBridge | src/Microsoft.IdentityModel.Xml/XmlTokenStreamWriter.cs:183-192 | the number of MoveToNextAttribute moves after the Element equals the run of attributes it owns |
| CursorReplay.OwnedCallsBridge | src/Microsoft.IdentityModel.Xml/XmlTokenStreamWriter.cs:183-192 | the attribute writes the cursor walk makes are the reference pass's writes for the same entries |
| CursorReplay.StepFromBridge | src/Microsoft.IdentityModel.Xml/XmlTokenStreamWriter.cs:166-239 | a pass with the cursor at index i equals the reference step on the entries from i on |
| CursorReplay.RunFromBridge | src/Microsoft.IdentityModel.Xml/XmlTokenStreamWriter.cs:164-241 | the loop's remaining passes from cursor i equal the reference replay of the entries from i on |

## Left out

- The real `XmlDictionaryWriter` is left out: its escaping, namespace declarations and output bytes. The writer is the `TraceWriter` call log; a writer that throws part-way through a replay is not modelled.
- `LogHelper`'s exception construction and logging: failures are the `Error` values carried by `Outcome`.
- How the entry lists are captured from an `XmlReader`. The entries are a given sequence. Well-nestedness, and attributes following their element, are preconditions only of the lemmas that need them.
- The constructor's null check on `entries` (lines 49-52): the entries are a non-null sequence, so the check cannot fire.
- Null strings: the exclusion name and namespace are `Option<string>`, where `None` (null) matches no element; entry names are never null.
- TokenStream.XmlTokenStreamWriter.WriteTo: does not model 32-bit wrap-around of `depth` or `position`, because integers are unbounded here and wrap-around needs more than 2^31 entries.
- The projections (`NodeType`, `IsEmptyElement`, `Prefix`, `LocalName`, `NamespaceUri`, `Value`) require the cursor to be on an entry. The source's out-of-range exception from the `IList` indexer is not modelled. `WriteTo` only reads them on a non-empty list.
- The `Count`, `Position`, `ExcludedElement` and `ExcludedElementNamespace` getters are the fields `count`, `position`, `excludedElement` and `excludedElementNamespace`, read directly.
- Node kinds with no `case` in the switch (`None`, `Entity`, `ProcessingInstruction`, ...) are one constructor, `Other`. A stray `Attribute` keeps its own kind. Both write nothing, as in the source, whose switch (XmlTokenStreamWriter.cs:166-239) has no case for them.
- Concurrency: all state is per instance.
