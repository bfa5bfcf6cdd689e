# Void Palabra, modelled

Void Palabra merges state between devices that edit it apart. This project models the
seven parts that carry its promises, and proves them:

- **The sequence** (`Fugue`, `Sequence`, `SequenceMerge`): ordered content as a Fugue tree,
  read by an explicit stack and edited in place by visible index.
- **The document and its replica** (`OrSets`, `Docs`, `Trees`, `TreeDocs`, `TreeForms`,
  `Runeless`, `Tags`, `Policy`, `Edits`, `Lens`, `Observing`, `Declarations`, `Editor`,
  `Spelling`, `Replica`, `Conflict`, `Removals`, `Flatten`, `Validity`, `Runs`, `RunLaws`): tagged sets joined by
  union; reading and recording a state as a lens; identity, counters and conflicts; whole
  runs of any number of replicas.
- **The session** (`Export`, `ExportLaws`, `Withheld`, `Session`, `SessionLaws`, `SessionRuns`,
  `Keepalive`, `Agreement`, `StalePolicy`, `Rounds`, `Progress`): what may leave a device, the state machine of one peer, two of them
  over a wire that loses, repeats and reorders, and how they come to agree once it stops.
- **Link rules** (`Links`, `Quotient`, `Graphs`, `Search`, `Cycles`): union-find with path compression, and an
  iterative search for strongly connected components.
- **History** (`History`): delivery as a fixpoint, and the least linear extension.
- **The canonical encoding** (`Numbers`, `Utf8`, `Codec`, `CodecLaws`, `Decoder`): a printer
  and a defensive parser, inverse to each other on canonical bytes.
- **Byte loops** (`Stream`, `Hdlc`, `Chunk`): stream reassembly, octet stuffing, and
  content-defined chunking.

Text is a sequence of bytes throughout, ordered as `std::string` orders it (`Bytes`). Code
that works by changing things is modelled by classes and loops proved against a
specification function or relation; the promises are lemmas about that specification.

Two levels describe a document. `Trees` and `TreeDocs` are the stored JSON: what counts as a
set, how kinds of node are ranked, what `validate` accepts. `Docs` and everything above it
is a map from typed places to sets; `TreeDocs.StoredJoin` shows that joining the one is
joining the other.

Where code and comments disagree the model follows the code:

- Of the laws of the join, said to hold "for ANY input"
  (`include/voidpalabra/crdt/document.hpp:89`), only idempotence does (`Trees.JoinRepeats`).
  Associativity holds of well-shaped trees, and fails outside them (`Trees.MapsBecomeASet`);
  commutativity holds of well-shaped trees exactly where shared tags agree, and fails
  otherwise (`Trees.RightSideWins`).
- Two devices that share everything and are both in sync hold the same sets, but their
  documents need not have one canonical form: an export always writes `runes` for a mantle,
  an observation of a mantle without runes never does, and the canonical form keeps empty
  maps (`TreeForms.OneFormIffSameMaps`, `TreeForms.FirstMerge`,
  `Runeless.InSyncButNotTheSame`). The exports do have one form, so nothing more is sent.
- Observing one's own output does change things when a fixed register is dead, an optional
  one shows its default, or a glyph's declaration reads differently with the policy;
  `Lens.GetPut` gives the exact condition, `Lens.BareMantleMoves` a document that misses it,
  and `Lens.PutGet` the condition for the other half.
- Insertion misses its index next to a stored node whose side is neither 0 nor 1, because
  `has_right_child` and the traversal disagree about it (`Sequence.InsertShows`).
- An export keeps back the names withheld runes show, not those they hold or held
  (`Exports.EdgeLeavesIff` says exactly which edges leave, `Withheld.HeldNameEscapes` gives a
  document where one should not have).
- Setting a policy moves no revision, so a session can say it is in sync while its export
  under the new policy has not been looked at (`Agreement.InSyncIsTrue`,
  `Withheld.PolicyMovesExport`, `StalePolicy.InSyncUnderAnOldPolicy`).
- The identity check spells places as text with `/` between names that may hold one, so two
  places can be spelled alike (`Spelling.PathsCollide`, `Spelling.KeysCollide`) and a reused
  tag go unnoticed (`Replicas.ReuseGoesUnnoticed`). Names
  without `/` are told apart (`Spelling.NamesTellApart`); NUL cannot occur in a name, names
  being C strings, but the model's names are any bytes.

## Model

| member | source | states |
|---|---|---|
| `Fugue.SeqOrder` | src/crdt/sequence.cpp:84-139 | The loop over an explicit stack of staged frames stops on any node set, orphans and cycles included, and lists exactly what the recursive in-order walk from the root lists. |
| `Fugue.EmitCorrect` | src/crdt/sequence.cpp:95-138 | A subtree's walk lists each root path below it exactly once, in the one order that compares paths step by step. |
| `Fugue.PathsCorrect` | src/crdt/sequence.cpp:84-139 | The whole order lists every node reachable from the root once and nothing else. |
| `Fugue.KinOrder` | src/crdt/sequence.cpp:95-138 | In the listing a left child stands before its parent and a right one after it, left children before right ones, and children of one side in ascending order of id. |
| `Fugue.LeafEnters` | src/crdt/sequence.cpp:95-138 | A new leaf enters the order at one place, between the paths before and after it, and nothing else moves. |
| `Sequence.Neighbour` | src/crdt/sequence.cpp:208-221 | The scan finds the last element before a visible index, and says so exactly when the list has that many visible elements. |
| `Sequence.SeqField.Insert` | src/crdt/sequence.cpp:194-244 | False and no change exactly when the index is out of range; otherwise the node sits where the insertion rule puts it and the dead set is untouched. |
| `Sequence.SeqField.Erase` | src/crdt/sequence.cpp:246-268 | False and no change exactly when the index is out of range; otherwise only that element gains a tombstone. |
| `Sequence.SeqField.Read` | src/crdt/sequence.cpp:270-283 | The payloads of the visible elements, in order. |
| `Sequence.InsertShows` | src/crdt/sequence.cpp:194-244 | With a fresh id the list reads as before with the new element at the index asked for, if and only if no visible element lies below an odd-sided child (a side that is neither 0 nor 1) of its left neighbour with a smaller id. |
| `Sequence.EraseShows` | src/crdt/sequence.cpp:246-268 | Erasing shows the list without that element, if and only if its tombstone's tag was never retired. |
| `Sequence.ShownIff` | src/crdt/sequence.cpp:84-139 | An element shows exactly when it and every ancestor up to the root was added, never retired and decodes, and it is not erased: orphans and cycles do not show. |
| `Sequence.PlainUndisturbed` | src/crdt/sequence.cpp:223-236 | Where every side is 0 or 1, as the library writes them, no insertion is ever disturbed. |
| `Sequence.OddSideDisturbs` | src/crdt/sequence.cpp:102-104 | The failing family is real: on a list with a node of side 7, inserting at index 1 puts the element at index 2. |
| `SequenceMerge.MergeKeepsBothOrders` | src/crdt/orset.cpp:162-167 | Joining two node sets that agree on shared ids, neither having retired a node the other holds, keeps each side's order as a subsequence of one merged order, the same whoever merges whom. |
| `SequenceMerge.SubtreeBlock` | src/crdt/sequence.cpp:95-138 | Every subtree is one contiguous block of the order. |
| `SequenceMerge.TypedChain` | src/crdt/sequence.cpp:223-242 | A run typed by consecutive insertions, the first not disturbed, reads in order at its index and forms a chain, each id the only child of the one before. |
| `SequenceMerge.TypedReads` | src/crdt/sequence.cpp:223-242 | A typed run reads where it was typed, in order, if and only if its first keystroke was not disturbed. |
| `SequenceMerge.RunStaysWhole` | src/crdt/sequence.cpp:95-138 | A typed run, its first keystroke not disturbed, stays one unbroken block in the order typed, whatever nodes others add concurrently. |
| `Links.LabelMeans` | src/canonical/links.cpp:118-122 | A pattern takes the relation it spells, and, ending in a star, every relation that begins as it does before the star. |
| `Links.RefRanks` | include/voidpalabra/links.hpp:79-82 | Runes are ordered by mantle and then by id, so the lesser root is the one of the lesser mantle. |
| `Quotients.UnionFind.Find` | src/canonical/links.cpp:89-95 | Returns the root, ends because parents strictly fall, and path compression changes no element's root. |
| `Quotients.UnionFind.Unite` | src/canonical/links.cpp:96-103 | Fuses exactly the two classes, under the lesser of the two roots. |
| `Quotients.QuotientOf` | src/canonical/links.cpp:159-177 | The classes are those of two or more of the least equivalence relation holding the equivalence links, each filed under its least member. |
| `Quotients.QuotientUnique` | src/canonical/links.cpp:159-177 | Only one result meets that description, so the order of the links does not matter. |
| `Graphs.ReachIsWalk` | src/canonical/links.cpp:240-247 | Reaching, as the invariants use it, is the existence of a walk along matching links. |
| `Searches.Follow` | src/canonical/links.cpp:263-274 | One link followed keeps the search sound: the rune at its end is opened, heard of, or passed over. |
| `Searches.Close` | src/canonical/links.cpp:275-290 | A rune with no link left is closed; when it is the root of its component, the component popped is a whole strongly connected one. |
| `Searches.Components` | src/canonical/links.cpp:253-292 | The iterative search ends and lists the strongly connected components, disjoint and covering every rune. |
| `Cycles.CycleViolations` | src/canonical/links.cpp:239-313 | Reports exactly the components with two runes or more or a self-link, each once with the links inside it; a rune is on a cycle exactly when one of them holds it. |
| `Cycles.NoneReportedIffAcyclic` | src/canonical/links.cpp:239-313 | No violation is reported if and only if the matching links are acyclic. |
| `Histories.History.Add` | src/utterance/history.cpp:40-59 | Each answer exactly when its condition holds; the history grows by that utterance only when the answer is ok. |
| `Histories.History.Heads` | src/utterance/history.cpp:63-74 | Exactly the utterances nobody names as a parent, in ascending order. |
| `Histories.History.LinearExtension` | src/utterance/history.cpp:135-170 | Kahn's loop yields the listing that takes the least ready hash first. |
| `Histories.TimelineOfHistory` | src/utterance/history.cpp:135-170 | That listing holds every utterance once with parents first, and is the least of all such listings word by word. |
| `Histories.ListLessMeans` | src/utterance/history.cpp:135-170 | Least word by word means the lesser hash where two listings first differ. |
| `Histories.History.Receive` | src/utterance/history.cpp:197-224 | Ends holding exactly the largest parent-closed set available from what was held and the well-sealed inbox; the rest is handed back. |
| `Histories.DeliveryUnique` | src/utterance/history.cpp:197-224 | That outcome is the same whatever the order and repetition of the inbox. |
| `Histories.BatchesAgree` | src/utterance/history.cpp:197-224 | Offering what one batch left over with a second batch ends where both at once end. |
| `Histories.History.Absorb` | src/utterance/history.cpp:181-195 | Absorbing always takes the whole of the other history. |
| `Histories.SameHeadsSameHistory` | src/utterance/history.cpp:63-86 | With an injective seal, equal heads mean equal histories and one timeline. |
| `Utf8.ScanIsGrammar` | src/encoding/encode.cpp:50-76 | One character passes the bit tests exactly when it is a UTF8-char of section 4 of RFC 3629, with the length its lead byte announces. |
| `Utf8.ValidUtf8` | src/encoding/encode.cpp:50-76 | Accepts exactly the UTF8-octets of section 4 of RFC 3629. |
| `Numbers.BigNeverFolds` | src/encoding/encode.cpp:96-112 | A whole number of 64 bits outside 2^53 becomes a double that never encodes as an integer again. |
| `Numbers.FoldedMeans` | src/encoding/encode.cpp:96-104 | A finite double is written as an integer exactly when its value is a whole number of magnitude below 2^53, and as that number; values are compared exactly, in units of the least positive double. |
| `Numbers.NearestEven` | src/encoding/decode.cpp:75-80 | A 64-bit integer too large for that is read as the nearest double, of two as near the one with an even last bit. |
| `Codec.PutUvarint` | src/encoding/encode.cpp:28-34 | Appends the base-128 form of the number, low groups first. |
| `Codec.UvarintIs` | src/encoding/encode.cpp:28-34 | A varint is its number in groups of seven bits, least significant first, every byte but the last marked and no empty group at the end. |
| `Codec.ReadVarint` | src/encoding/decode.cpp:51-61 | Reads at most ten bytes, refuses what would not fit 64 bits, and leaves the cursor after what it read. |
| `Codec.VarintBack` | src/encoding/decode.cpp:51-61 | Every 64-bit number's varint is read back, whatever follows it. |
| `Codec.VarintMeans` | src/encoding/decode.cpp:51-61 | What is read is the marked run at the front, padded or not, at its value, exactly when it is ten bytes or fewer and fits 64 bits. |
| `Codec.BigEndianIs` | src/encoding/encode.cpp:106-112 | A double's eight bytes stand most significant first. |
| `Decoders.DecodeAt` | src/encoding/decode.cpp:67-135 | The decoder over one shared cursor does what the parse of the remaining bytes does, at any depth of nesting, with every refusal. |
| `Decoders.DecodeBytes` | src/encoding/decode.cpp:139-145 | Decodes one value and refuses anything after it. |
| `CodecLaws.RoundTrip` | src/encoding/encode.cpp:198-222 | The encoding of every encodable value, followed by any bytes, parses back to that value up to the order of members and leaves those bytes. |
| `CodecLaws.DecodeEncode` | src/encoding/decode.cpp:139-145 | Decoding an encoding within the nesting limit gives the value back with its members in order, and that encodes to the same bytes. |
| `CodecLaws.CanonicalIffWritten` | src/encoding/decode.cpp:147-164 | Accepted as canonical are exactly the bytes the encoder can write for some value within the nesting limit, and exactly those for one whose members stand, at every depth, in byte order of their encoded keys. |
| `CodecLaws.CanonicalOrdered` | src/encoding/decode.cpp:147-164 | What canonical bytes decode to has its members in strictly ascending byte order of their encoded keys, at every depth. |
| `CodecLaws.SortedByBytes` | src/encoding/encode.cpp:139-144 | Sorting members no two of which share a key puts the bytes of their keys in strictly ascending order. |
| `CodecLaws.SampleBytes` | src/encoding/encode.cpp:17-34 | The bytes of a few values, constants, small integers, a list and an object with two members, written out. |
| `CodecLaws.SampleDecodes` | src/encoding/decode.cpp:67-164 | A set, a padded whole number and a value with bytes left over: the first two decode and are not canonical, the last is refused. |
| `CodecLaws.PrefixFree` | src/encoding/encode.cpp:198-222 | No encoding is another value's encoding or a proper prefix of one. |
| `Bytes.LessMeans` | src/encoding/encode.cpp:140-141 | The order of byte strings: less is what ends first, or has the smaller byte, after all the two share. |
| `OrSets.SetsCommuteIff` | src/crdt/orset.cpp:162-167 | Two sets join alike either way round if and only if shared tags carry one value. |
| `Docs.JoinCommutesIff` | src/crdt/document.cpp:63-111 | Two documents join alike either way round if and only if shared tags agree place by place. |
| `Docs.JoinAssociates` | src/crdt/document.cpp:275-279 | Joining documents is associative, whatever they hold. |
| `Docs.JoinIdempotent` | src/crdt/document.cpp:275-279 | Joining a document with itself changes nothing. |
| `Docs.JoinIsLeast` | src/crdt/document.cpp:275-279 | Where shared tags agree, the join is the least document above both. |
| `Docs.AnyOrder` | src/crdt/document.cpp:275-279 | Any order and repetition of agreeing deltas reaches one document. |
| `Docs.JoinStaysValid` | src/crdt/validate.cpp:195-219 | A join of valid documents is valid. |
| `Trees.ReadWrite` | src/crdt/orset.cpp:33-121 | A set written as JSON, values in lowercase hex, reads back as itself. |
| `Trees.UnhexIff` | src/crdt/orset.cpp:58-75 | A value is read from exactly one text, its lowercase hex; every other spelling is refused. |
| `Trees.HexIs` | src/crdt/orset.cpp:40-43 | Two digits a byte, the high half first. |
| `Trees.KindsRank` | src/crdt/document.cpp:87-111 | Of two nodes of different kinds a map stands before a set and a set before anything else, on either side; of two that are neither, the one printed smaller stands. |
| `Trees.JoinMeans` | src/crdt/document.cpp:63-111 | Joining stored trees joins what they mean, and keeps them well shaped. |
| `Trees.SameFormIffSameMeaning` | src/crdt/document.cpp:293-311 | Two well-shaped trees have one canonical form exactly when they mean the same. |
| `Trees.JoinCommutes` | src/crdt/document.cpp:87-111 | On well-shaped trees, mismatched kinds included, the two orders of joining have one canonical form if and only if shared tags agree. |
| `Trees.JoinGroups` | src/crdt/document.cpp:87-111 | Joining is associative up to the canonical form on well-shaped trees. |
| `Trees.JoinRepeats` | src/crdt/document.cpp:87-111 | Joining any tree with itself changes nothing up to the canonical form. |
| `Trees.MapsBecomeASet` | src/crdt/document.cpp:39-43 | Outside well-shaped trees the laws fail: a map holding only `a` and one holding only a list under `r` join into a set, and then grouping matters. |
| `Trees.RightSideWins` | src/crdt/orset.cpp:162-167 | On a tag two sets add with different values, each order of joining keeps the right side's value. |
| `TreeDocs.ValidJoins` | src/crdt/validate.cpp:195-219 | The join of two trees `validate` accepts is one it accepts. |
| `TreeDocs.ValidIsShaped` | src/crdt/validate.cpp:140-219 | Every tree `validate` accepts is well shaped, whatever its users named their mantles, so the laws hold of it. |
| `TreeDocs.StoredJoin` | src/crdt/document.cpp:63-111 | At every place a document may have a set, the joined tree stores the join of the two sets. |
| `TreeForms.OneFormIffSameMaps` | src/crdt/document.cpp:293-311 | Two valid trees that hold the same sets at every place have one canonical form exactly when they have maps, empty ones included, at the same paths. |
| `TreeForms.ExportsOneFormIff` | src/sync/export.cpp:70-135 | Their exports of everything have one canonical form exactly when they have the same maps, `mantles` and the mantles' `runes` aside, which every export writes. |
| `TreeForms.FirstMerge` | src/sync/export.cpp:115-123 | A new replica that takes in an export of everything holds the same sets, and the exports of both have one canonical form; the documents have one exactly when the sender has `mantles` and every mantle in it has `runes`. |
| `Runeless.InSyncButNotTheSame` | src/crdt/replica.cpp:324-356 | A concrete case where they do not: a mantle observed without runes and sent to a new replica. |
| `TreeDocs.StoredIsValid` | src/crdt/validate.cpp:59-193 | The sets a valid tree stores are well placed, well tagged and canonical. |
| `TreeDocs.AllowedIffGood` | src/crdt/validate.cpp:59-110 | A set is allowed at a place exactly when, written down, it passes the check `validate` makes there. |
| `Tags.OwnMint` | src/crdt/replica.cpp:97-109 | A tag minted under one id is read as its own by that id and by no other, up to the counters 64 bits can carry. |
| `Tags.MintInjective` | src/crdt/replica.cpp:157-157 | Two mints are one tag only if id and counter are the same. |
| `Tags.StampMint` | src/crdt/policy.cpp:96-110 | A minted tag's stamp is its counter and its writer. |
| `Tags.MintsRank` | src/crdt/internal.hpp:103-107 | Of two minted tags, counters in range, the one with the greater counter ranks higher, and with equal counters the one of the greater writer. |
| `Tags.StampRanks` | src/crdt/internal.hpp:103-107 | Any two tags rank by counter, then by writer, then by the tag itself. |
| `Tags.DigitsMean` | src/crdt/replica.cpp:97-109 | A counter is read from any run of digits, leading zeros and all, whose value but for the last digit leaves room for one more in 64 bits. |
| `Policies.ResolveRegister` | src/crdt/policy.cpp:34-94 | Reads a register as its policy declares: the single value, the least, the largest number if all are numbers, or the value under the latest tag. |
| `Policies.ReadsAs` | src/crdt/policy.cpp:34-94 | A conflict stands exactly when two values or more do and no join is declared, or the largest is asked for and some value is no number; all of them are then listed in byte order. Otherwise the least, the largest or the latest stands alone. |
| `Policies.Largest` | src/crdt/policy.cpp:47-67 | The largest number, and of equal ones the first in byte order, exactly when every value is a number. |
| `Policies.Newest` | src/crdt/policy.cpp:69-91 | The one live tag whose stamp exceeds every other live tag's. |
| `Policies.LatestUnique` | src/crdt/policy.cpp:69-91 | There is only one such tag, so equal documents show the same value. |
| `Editors.Editor.Store` | src/crdt/replica.cpp:161-182 | The set is replaced, nothing else moves, and the delta joined into the document this call began with is still the working document. |
| `Editors.Editor.SyncRegister` | src/crdt/replica.cpp:186-200 | Writes or clears a register unless it already shows that, unresolved conflicts left alone. |
| `Editors.Editor.SyncSet` | src/crdt/replica.cpp:202-211 | Adds each missing value under one new tag and retires each extra one. |
| `Editors.Editor.MakePresent` | src/crdt/replica.cpp:215-222 | Marks a thing present under a new tag unless it already is. |
| `Editors.Editor.Remove` | src/crdt/replica.cpp:227-242 | Keeps every add of the presence and records exactly its tags, those retired before, and every tag live in a set whose path starts with the thing's own, a rune's within a mantle included; what is already gone is left alone unless asked. |
| `Edits.BeneathIsPath` | src/crdt/conflict.cpp:58-73 | The sets a removal sees are those whose path in the stored document starts with the thing's, its own presence left out. |
| `Removals.CollectedIsLive` | src/crdt/conflict.cpp:58-73 | On the stored tree, the walk down from a thing's node collects exactly the tags live beneath that thing in the document. |
| `Removals.SetsHavePlaces` | src/crdt/validate.cpp:59-193 | A tree `validate` accepts holds no set outside the places a document may have. |
| `Editors.Editor.ObserveThing` | src/crdt/replica.cpp:303-350 | One thing of the state recorded, every set of it as wanted and no other set touched. |
| `Editors.Editor.ObserveInto` | src/crdt/replica.cpp:360-403 | The whole state recorded: every set of the document edited as the state wants it, things shown and now absent removed. |
| `Observing.AbsentKeepsSets` | src/crdt/replica.cpp:330-390 | Of a thing the state lacks only a live presence is edited, and with its mantle gone too not even a rune's. |
| `Observing.AbsentIsRemoved` | src/crdt/replica.cpp:330-390 | A live thing the state lacks is gone afterwards, its presence having recorded exactly the tags live below it before. |
| `Observing.ShownIsPresent` | src/crdt/replica.cpp:215-222 | A thing the state shows is alive afterwards; one that was not gets one add of its own. |
| `Observing.FieldEdited` | src/crdt/replica.cpp:186-200 | A field that reads as the state has it keeps its set; one that does not gets a new value in place of all older ones; one the state leaves out is retired. |
| `Observing.SetEdited` | src/crdt/replica.cpp:202-211 | Tags and edges become exactly those of the state, one new tag for each value that was missing, older adds kept and extra values retired. |
| `Replicas.Replica.Observe` | src/crdt/replica.cpp:444-468 | On a readable state, the observation and a delta that holds each add and each retirement the document gained and no other, and joined into the old document gives the new one; on an unreadable one, only counters move. |
| `Lens.GetPut` | src/crdt/replica.cpp:186-242 | Observing one's own flattened document changes nothing and mints no tag, if and only if what is shown is steady: fixed registers live, optional ones off their default, declarations read the same with and without the policy. |
| `Lens.BareMantleMoves` | src/crdt/replica.cpp:303-350 | Not every valid document is steady: one holding only a mantle's presence is not. |
| `Lens.PutGet` | src/crdt/replica.cpp:303-403 | After observing a state the document flattens to exactly that state, if and only if no declaration the policy already shows as wanted differs from the one read without it. |
| `Lens.PlainUnlessDeclared` | src/crdt/document.cpp:489-508 | With `descriptor` left at Conflict or Pick that condition always holds. |
| `Declarations.LatestHidesDeclaration` | src/crdt/document.cpp:500-500 | With `descriptor` read by Latest it can fail: a document `validate` accepts and a state of canonical values. |
| `Flattening.FlattenDoc` | src/crdt/document.cpp:375-511 | Builds, thing by thing and field by field, exactly the state the document shows. |
| `Observing.ShownIff` | src/crdt/document.cpp:393-508 | A thing is shown exactly when its presence has a live tag, its mantle's has if it is a rune, and its declaration has if it is a glyph. |
| `Observing.FieldReads` | src/crdt/document.cpp:393-508 | What is shown of each field: null for a fixed one with no value, nothing for an optional one at its default or a key with no value, the least live value of a declaration. |
| `Observing.ShownIsTaken` | src/crdt/document.cpp:375-511 | What a valid document shows is a state `observe` accepts. |
| `Observing.ShownIsCanonical` | src/crdt/document.cpp:375-511 | Its values are canonical, so recording it again leaves a valid document. |
| `Replicas.Replica.Create` | src/crdt/replica.cpp:415-423 | A replica with nothing in it, exactly when the id qualifies. |
| `Replicas.Replica.Fork` | src/crdt/replica.cpp:425-440 | The same document under a new id, the counter at every counter in it up to the ceiling; refused for a bad id or its own. |
| `Replicas.HighestOf` | src/crdt/replica.cpp:113-122 | The largest counter of 2^40 or less that any tag carries, or zero. |
| `Replicas.CollectAdds` | src/crdt/replica.cpp:78-94 | For every tag added, a path and value it was added with. |
| `Spelling.NamesTellApart` | src/crdt/replica.cpp:78-94 | Where names hold neither `/` nor NUL and keys no NUL, two adds are spelled alike in the identity check exactly when place and value are the same. |
| `Spelling.PathsCollide` | src/crdt/replica.cpp:78-94 | Without that, a rune and a mantle whose name spells that rune's path are spelled alike. |
| `Replicas.ReuseGoesUnnoticed` | src/crdt/replica.cpp:490-515 | So reuse can go unnoticed: two valid documents, an own tag that names a rune here and a mantle there, and no collision. |
| `Spelling.KeysCollide` | src/crdt/replica.cpp:78-94 | So are a mantle whose name spells another's tag, and that tag when its key ends as a set's path does; both places are ones `validate` allows. |
| `Replicas.Replica.Merge` | src/crdt/replica.cpp:472-531 | Refused exactly when not valid; between documents that name each tag once, a collision exactly when some own tag is unknown here or is spelled otherwise, and with plain names exactly when some own tag is unknown or names another place or value; else the join, and the counter at everything seen. |
| `Replicas.ReuseIsNoticed` | src/crdt/replica.cpp:490-515 | With plain names the spelled comparison notices an own tag exactly when it is unknown here or names another place or value. |
| `Replicas.VouchedIsTaken` | src/crdt/replica.cpp:490-515 | The merge the runs assume is the one the replica decides on. |
| `Replicas.VouchedOrBetrays` | src/crdt/replica.cpp:490-515 | Where each document gives a tag one name, an own tag betrays exactly when it is not vouched for. |
| `Replicas.MergeStaysFresh` | src/crdt/replica.cpp:521-528 | A merge leaves no own tag past the counter. |
| `Replicas.Replica.Resolve` | src/crdt/replica.cpp:553-599 | Nothing unless the conflict still stands as given; then the choice, and nothing else, with a delta that holds exactly what the document gained. |
| `Replicas.Replica.Restore` | src/crdt/replica.cpp:616-662 | A saved replica is taken back exactly when id, counter and document qualify and no own tag is past the counter. |
| `Validity.ObservedIsValid` | src/crdt/replica.cpp:360-403 | Observing a state of canonical values keeps a valid document valid. |
| `Validity.SettledIsValid` | src/crdt/replica.cpp:553-599 | So does settling a conflict. |
| `Runs.StepKeeps` | src/crdt/replica.cpp:415-531 | Create, edit, merge, fork, save, send, and a crash back to any save that holds what was sent, each keep every document valid and its tags named once, authored, saved before they leave, and counted. |
| `RunLaws.OneTagOneName` | src/crdt/replica.cpp:472-515 | In every run no tag names two places or two values in any document held, saved or sent. |
| `RunLaws.MergeAlwaysTaken` | src/crdt/replica.cpp:472-531 | In every run any document that was ever sent is merged: never refused, never an identity collision. |
| `RunLaws.EveryMintIsNew` | src/crdt/replica.cpp:157-157 | In every run a tag an edit mints is in no document of the system before it. |
| `RunLaws.LaterOutranks` | src/crdt/replica.cpp:521-528 | In every run a tag minted after seeing another, counters in range, has the larger stamp. |
| `RunLaws.EverythingIsValid` | src/crdt/validate.cpp:195-219 | In every run everything a replica holds, may return to or ever sent is a document `validate` accepts. |
| `RunLaws.SavesAreAccepted` | src/crdt/replica.cpp:616-662 | In every run `from_bytes` accepts each save a replica may return to, its counter being in range. |
| `RunLaws.ObservingIsAnAct` | src/crdt/replica.cpp:444-468 | What `observe` does with a canonical state is an act the runs allow. |
| `RunLaws.SettlingIsAnAct` | src/crdt/replica.cpp:553-599 | So is what `resolve` does. |
| `Conflicts.ConflictsOf` | src/crdt/conflict.cpp:146-212 | Finds every conflict the document holds and no other: fields with several standing values, and, at the outermost thing deleted, a presence retired while some tag live in a set below the thing's path, a rune's within a mantle included, is not among what it retired. |
| `Conflicts.RacedIffUnseen` | src/crdt/conflict.cpp:75-90 | After a removal and any join that leaves the thing gone, it is reported exactly when some add in a set below its path came from the other side alone and neither side's removal recorded it. |
| `Conflicts.RacedMeans` | src/crdt/conflict.cpp:75-90 | A deletion raced exactly when the presence is gone, was there, and some tag live below the thing's path is not among what it retired. |
| `Conflicts.StandingMeans` | src/crdt/conflict.cpp:26-42 | A field stands in conflict exactly when its thing and mantle are there, two values or more are live, and no declared join settles them; its sides are all of them in byte order. |
| `Conflicts.RuneEditRaces` | src/crdt/conflict.cpp:58-90 | An edit to a rune that the removal of its mantle did not record makes that removal a conflict. |
| `Removals.RacedInTree` | src/crdt/conflict.cpp:75-90 | The test as it runs on a node of the stored tree gives the same answer. |
| `Conflicts.CleanDeleteIsQuiet` | src/crdt/conflict.cpp:75-90 | A removal on its own is never reported. |
| `Conflicts.SettlingCloses` | src/crdt/replica.cpp:553-599 | Whatever the choice, no conflict is left at that place; the thing lives exactly if it was kept, and a register holds exactly the chosen value. |
| `Exports.Exportable` | src/sync/export.cpp:70-135 | The two passes give exactly the shareable projection: every glyph's sets, a shared mantle's, a shared rune's of a shared mantle, and the presence of whatever was removed, a withheld mantle or a withheld rune of a shared one included; each as it is, edges apart. |
| `Exports.SetLeavesIff` | src/sync/export.cpp:100-131 | Which sets leave, place by place, and that each leaves whole but for a mantle's edges, whose retirements all leave. |
| `ExportLaws.RemovalTravels` | src/sync/export.cpp:100-116 | A removal reaches a peer even of a withheld thing: once the exporter retired every presence the peer still had, the thing is gone there too. |
| `ExportLaws.SharedArrives` | src/sync/export.cpp:105-116 | What is shared arrives whole: a peer that joins the export in holds the join of both sets. |
| `ExportLaws.WithheldShowsNothing` | src/sync/export.cpp:100-116 | No set of a withheld thing, or of anything in a withheld mantle, leaves with a live value. |
| `ExportLaws.PlainEdgeLeavesIff` | src/sync/export.cpp:45-62 | An edge from one name to another in a shared mantle leaves exactly when no withheld rune there shows either name. |
| `ExportLaws.FarEdgeStays` | src/sync/export.cpp:45-62 | An edge with an end given as an object stays back when the mantle it gives, or its own by default, is withheld, or has a withheld rune that shows the name given. |
| `Exports.EdgeLeavesIff` | src/sync/export.cpp:45-62 | An edge leaves exactly when its mantle is shared and neither end gives a withheld mantle or a name a withheld rune shows. |
| `Exports.ExportIsBelow` | src/sync/export.cpp:70-135 | Joining an export back adds no tag. |
| `Exports.PrivateStaysPrivate` | src/sync/export.cpp:70-135 | Changing what is withheld, save its presence and the names withheld runes show, changes nothing that leaves. |
| `Exports.EverythingLeaves` | src/sync/export.cpp:66-68 | With everything shared the whole document leaves. |
| `Exports.HeldNameLeaves` | src/sync/export.cpp:82-97 | A name a withheld rune holds in a conflict but does not show leaves with the edge that gives it, against the comment that says held names stay. |
| `Withheld.HeldNameEscapes` | src/sync/export.cpp:82-97 | A concrete valid document in which it does: a withheld rune with two live names under Conflict, and an edge that gives the one not shown. |
| `Withheld.PolicyMovesExport` | src/sync/export.cpp:95-95 | The export of that one document changes with the policy: read by Latest the edge stays back, read as a conflict it leaves. |
| `Sessions.Session.Start` | src/sync/session.cpp:130-140 | Names the session, notes the time and says hello; what it remembers of a peer is untouched, and of a session just constructed is nothing. |
| `Sessions.Session.RefreshExport` | src/sync/session.cpp:65-83 | The export is recomputed exactly when the replica has moved. |
| `Sessions.Session.Tick` | src/sync/session.cpp:142-222 | Every field and frame of a tick: timeouts, the settling window, resends, what the peer is known to hold, keepalive. Still open afterwards, the session has spoken within the keepalive, and it notes the time exactly when it says something. |
| `Sessions.Session.Receive` | src/sync/session.cpp:224-404 | Every field and frame of a received hello, state, ack, refusal or goodbye, the replica touched only by a state that asks to be merged. |
| `Sessions.Session.ReceiveHello` | src/sync/session.cpp:243-286 | Identity, restart and opening as a hello decides them. |
| `Sessions.Session.ReceiveState` | src/sync/session.cpp:292-335 | A state is acknowledged again, merged and acknowledged, or refused. |
| `SessionLaws.TickSpeaks` | src/sync/session.cpp:162-222 | A tick keeps an open session open while its peer was heard within the silence timeout, and leaves it having spoken within the keepalive. |
| `SessionLaws.ReceiveHears` | src/sync/session.cpp:224-340 | Any frame of the peer's short of a goodbye or a collision is heard and leaves an open session open. |
| `SessionLaws.TickCloses` | src/sync/session.cpp:142-166 | A tick closes a session exactly when the hello or the silence timeout has passed, without a word. |
| `SessionLaws.ConnectingRepeats` | src/sync/session.cpp:146-160 | Until the peer's hello comes a session says only its own, every resend interval. |
| `SessionLaws.StateGoesIff` | src/sync/session.cpp:167-196 | A tick sends the state exactly when the session is open and not silent, none went out within the coalescing window, the peer neither acknowledged, refused nor sent it, and it is new or a resend interval old. |
| `SessionLaws.StrangersAreIgnored` | src/sync/session.cpp:243-291 | A frame of anybody but the peer changes nothing, save a first hello, or one under the session's own id, which closes it. |
| `SessionLaws.HellosAreAnswered` | src/sync/session.cpp:255-286 | A hello of the peer's opens the session and is answered exactly when the peer has not heard this side, each time it says so, or when it opens the session. |
| `SessionLaws.StatesAreAnswered` | src/sync/session.cpp:292-335 | Every state of the peer's is acknowledged exactly when it is merged or was the last one merged, and refused otherwise, with a goodbye on a collision. |
| `SessionLaws.AnswersAreHeard` | src/sync/session.cpp:336-404 | An acknowledgement counts only for the export as it stands, a refusal is remembered, a goodbye closes. |
| `SessionLaws.RestartSendsAtOnce` | src/sync/session.cpp:255-286 | A hello under a new name forgets what was acknowledged, refused and merged, is answered, and has the state sent at once. |
| `Keepalive.NeverClose` | src/sync/session.cpp:162-222 | Two open sessions, each ticked within every gap, over a wire that brings something of each turn within a delay, never close while keepalive, gap and delay together are less than the silence timeout, whatever is edited, lost, repeated or reordered meanwhile. |
| `SessionRuns.MoveKeeps` | src/sync/session.cpp:142-348 | Every move of the world keeps what both ends believe true and every frame on the wire borne out by its sender's document. |
| `Agreement.InSyncIsTrue` | src/sync/session.cpp:467-470 | In every run, whatever is lost, repeated, reordered or edited, a session in sync has a peer whose document contains everything it shares under the policy it last looked at its export with, which is the policy of now unless `set_policy` was called since. |
| `StalePolicy.InSyncUnderAnOldPolicy` | src/sync/session.cpp:467-470 | A run in which that is not so: the policy is set after the session is in sync, it still says so, and what it shares now is not in its peer's document. |
| `Agreement.HelloUnsettles` | src/sync/session.cpp:255-270 | A hello under another name than the peer's last takes a session out of sync, whenever it was sent. |
| `Agreement.NothingRefused` | src/sync/session.cpp:292-340 | In every run no session ever refuses a state or learns that one was refused. |
| `Agreement.BothInSync` | src/sync/session.cpp:183-196 | When both are in sync and share everything, the two documents hold the same sets at every place. |
| `Rounds.Round` | src/sync/session.cpp:142-222 | Without edits or losses, a save, a tick, its state and the acknowledgement put a ready session in sync, its peer holding all it shares; when the peer has it already the tick is enough. |
| `Progress.SyncComes` | src/sync/session.cpp:142-340 | Wherever a run has come to with both sessions open, once edits and losses stop there are moves that end with both in sync, at most eight for each fact the first has to learn and eighteen more. |
| `Progress.SyncComesAfterRestart` | src/sync/session.cpp:130-340 | Wherever a run has come to, whatever its sessions were doing: when both start again they come to be in sync, six moves for opening included. |
| `Progress.SharedSyncComes` | src/sync/session.cpp:142-340 | When everything is shared ten moves are enough, and both documents then hold, at every place, the join of the two. |
| `Stream.FrontIs` | src/sync/wire.cpp:203-210 | A framed payload stands at the front of the stream it starts. |
| `Stream.FrontIff` | src/sync/wire.cpp:203-250 | A frame is read from the front of a stream exactly when the stream begins as that frame is sent. |
| `Stream.BadIff` | src/sync/wire.cpp:223-250 | The reader gives up exactly when no further bytes could make a frame of what it has. |
| `Stream.LengthIs` | src/sync/wire.cpp:203-210 | The length stands least significant byte first. |
| `Stream.StreamReader.Feed` | src/sync/wire.cpp:212-221 | Bytes are kept until framed; a broken reader takes no more. |
| `Stream.StreamReader.Next` | src/sync/wire.cpp:223-250 | However the bytes came, the frames handed back are a prefix of those of all bytes fed; when none is left it is all of them, and the reader is broken exactly if the bytes are. |
| `Stream.PiecesDoNotMatter` | src/sync/wire.cpp:212-250 | However a stream is cut into pieces, the frames that come out are those of the whole. |
| `Stream.FramesBack` | src/sync/wire.cpp:203-250 | Frames put on a stream one after another come back exactly. |
| `Hdlc.Frame` | src/reticulum/node.cpp:703-717 | The loop builds a flag, the stuffed packet and a flag. |
| `Hdlc.StuffingIs` | src/reticulum/node.cpp:703-717 | The flag and the escape become the two pairs of section 4.2 of RFC 1662, every other byte stands for itself, and packets are stuffed byte by byte. |
| `Hdlc.NoFlagInside` | src/reticulum/node.cpp:703-717 | Nothing stuffed can be taken for a flag. |
| `Hdlc.Decoder.Feed` | src/reticulum/node.cpp:719-745 | The loop gives the packets and the state that byte-by-byte decoding gives, however the bytes are split. |
| `Hdlc.FrameComesOut` | src/reticulum/node.cpp:703-745 | From any decoder state a framed packet comes out last exactly if it is not empty and within the limit, and the decoder is ready for the next. |
| `Hdlc.PacketsBack` | src/reticulum/node.cpp:703-745 | Packets framed one after another come out as they went in. |
| `Chunking.CountCutBits` | src/store/chunk.cpp:52-59 | The exponent of the least power of two that is no smaller than the average, moved by `extra` and kept between 1 and 40. |
| `Chunking.Chunk` | src/store/chunk.cpp:73-119 | The nested loops give exactly the chunks that `CutsAtFirstTest` describes one by one. |
| `Chunking.CutsAtFirstTest` | src/store/chunk.cpp:61-117 | A chunk longer than the least ends where the hash, primed from a window before the least, is first below 2^(64 - bits), that is where its high bits are zero, the strict count up to the average and the loose one after it, or at the limit. |
| `Chunking.GearIsSum` | src/store/chunk.cpp:94-110 | The hash is the sum of each byte's gear, doubled once for every byte after it, on 64 bits. |
| `Chunking.ChunksFit` | src/store/chunk.cpp:73-119 | Chunk lengths sum to the input; all but the last lie between the least and the greatest size. |
| `Chunking.HashIsLocal` | src/store/chunk.cpp:61-69 | With a least size of a window or more, the hash tested at a position depends only on the 64 bytes ending there. |
| `Chunking.SuffixResyncs` | src/store/chunk.cpp:87-117 | Where a cut falls just before a suffix, everything after is cut as that suffix alone would be. |

## Left out

- Above `Trees`, `TreeDocs` and `TreeForms` a document's empty maps are not represented: a thing with no set at all is not in the document, and equal documents are equal sets at every place. A session's digest is that of such a document, so two exports that differ by an empty map alone are one export here.
- Digests are taken to be injective, so the session model carries the document itself; SHA-256 is not modelled.
- Counters are unbounded: the 64-bit width shows only in how tags are read back, and a counter past it is outside `RunLaws.LaterOutranks`.
- The order in which an observation visits fields, things and edges, and so which counter each new tag gets, is any order.
- A state handed to `observe` is modelled after hydration, as canonical bytes by field; which malformed JSON is refused, and the JSON text itself, are not part of this model. A refused state is one constructor that burns some counters.
- Duplicate members in JSON objects are not represented; `validate` refuses them.
- Whether a value is a number and how large, and a declaration without its `source`, are parameters of reading; IEEE-754 arithmetic is not modelled beyond which doubles are whole and below 2^53 and how a larger whole number is rounded.
- Prefix rules in a policy are not modelled: a policy is a function from fields to joins.
- SequenceMerge.MergeKeepsBothOrders: a node one side retired and the other holds drops out of the merged order, so such pairs are not covered; the library retires no node.
- Replicas.Replica.Merge: when one document adds a tag in two places the code compares the last one it visits; the contract then only bounds the answer. Where each document names a tag once, as `RunLaws.OneTagOneName` shows every run does, it is exact.
- Runs.StepKeeps: a fork and a send need the replica saved first, as the header asks.
- Agreement.InSyncIsTrue: the two ends lose nothing they held, and a replica is saved before its session sends a state. Frames are only those the two sessions made.
- Progress.SyncComes: from two open sessions that have heard from each other within the silence timeout and waited out their resend and coalescing pauses, each pause being shorter than that timeout; frames arrive at the time they were sent. `Progress.SyncComesAfterRestart` needs only the pauses shorter than the timeout. There is such a schedule; not every schedule comes to rest, because a hello of an old session delivered again undoes what was acknowledged (`Agreement.HelloUnsettles`).
- Keepalive.NeverClose: of sessions that are not started again, and frames that do not come back to their sender. File requests, which a tick may also send, are not part of this model.
- Histories.SameHeadsSameHistory: needs the seal to be injective, as it is for a digest without collisions.
- Chunking.CountCutBits: for an average above 2^63 the code shifts a 64-bit one by 64, which C++ leaves undefined; the model goes on counting.
- Chunking.ChunksFit: needs a greatest size of at least one and no less than the least size; with a greatest size of zero the loop would not end. The gear table is any table of 256 values.
- `CodecLaws` speaks of values and bytes shorter than 2^64, which is what memory holds; the nesting limit is the default 1000.
- The conflict list is a set: its order and its JSON rendering are left out, and so is a conflict's hash beyond telling conflicts apart.
- Capacity rules, port numbers, name resolution and the sorted violation list in link checking; ancestors, concurrency and persistence of histories.
- `enrich`, anomalies, provenance, the journal, references, archives, containers and the block store.
- File transfer, presence, signatures and malformed frames in a session; the JSON header of a frame.
- Version names, `encode_set` and the version header of digests.
- Reticulum itself, sockets, randomness and cryptography.
