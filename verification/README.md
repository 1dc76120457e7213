# Opentine, modelled and proved

A Dafny model of the data-structure and protocol cores of opentine, a "git for agent runs", with
proofs of what those cores are for. `dafny verify dfyconfig.toml` checks the whole project.

## What is modelled

| part | files | of the repository |
|---|---|---|
| CBOR codec | `CborSyntax`, `CborDecoder`, `CborTheorems`, `CborExamples`, `Utf8Text`, `ByteOrder` | `_cbor.py` |
| Content-addressed artifacts | `ObjectGraph`, `BundleRepo`, `Repository`, `Sidecars`, `TineRepo`, `RoundTrips`, `StepIds` | `_artifact_v4.py`, `_artifact_v4_read.py`, `_artifact_v4_repo.py`, `repository/_sig_sidecar.py` |
| Redaction walk | `RedactText`, `RedactNames`, `RedactForms`, `RedactMasks`, `Redact`, `RedactTheorems`, `RedactGuarantees`, `RedactClashes` | `_canon_redact.py`, `_redact_names.py`, `policies.py` |
| Action queries | `LikePattern`, `PackedLists`, `ActionQuery`, `QueryTheorems`, `QueryCompiler` | `_actions_query.py` |
| Action index | `IndexTables`, `IndexOrder`, `ActionIndex`, `IndexTheorems` | `_actions_db.py`, `_actions_schema.py` |
| Bisect | `Bisect`, `BisectRounds`, `BisectCap`, `BisectRun`, `BisectScores` | `_bisect.py`, `_cli_bisect.py` |
| Lineage | `Lineage` | `_agent_trust.py` |
| Refs and bundles | `ForkHistory`, `RefNames`, `BundleFile`, `RefRepo` | `_cli_git_sync.py`, `_bundle.py`, `_bundle_sigs.py`, `repository/_refs.py`, `repository/_ref_txn.py` |
| Action manifest | `HashChain` | `_actions_manifest.py` |
| ATIF, out and in | `AtifUsage`, `AtifOwners`, `AtifExport`, `AtifTheorems`, `AtifIndex`, `AtifImport` | `_atif_export.py`, `_atif.py`, `trace/_transcript_usage.py` |
| Shared | `Outcomes`, `Basics`, `TextOrder` | |

Loops that fill lists, stacks and tables are methods with loop invariants, proved against a
specification function; objects whose methods update their fields are classes. What the
repository promises is proved of the specification functions, over all inputs or all runs.

The outside world enters as parameters. A hash is any function with outputs of the right shape:
nothing is assumed injective, and a theorem that would need it exhibits the collision instead. An
object id determines its envelope, and links have a rank, because an id is a hash of its content.
What a source's loader gives is a function of its key and stamp (the index is promised only that
a stamp changes with its run), and the actions of a run are numbered by its steps, as
`extract_actions` numbers them. The steps of a run have distinct ids and stand after their
parents, as `Graph.add` leaves them. `str.lower` and GLOB are parameters of a query, JSON and the pack
format parameters of a bundle. `str.isdigit` is any test of characters with the laws of
`RedactText.DigitLaws`. Whether a run loads with an annotation, whether a run graph or an event's
metrics are sound, and whether an artifact's JSON is within the limits on one are tests of those objects
alone (`LOADS`, `SANE`, `FITS`): any tests, since an id fixes what it names.

## What the proofs found

- Redaction is idempotent for the built-in names, but not for every list of extra names a policy
  can add. `RedactClashes.IdempotentIff` gives the exact condition: no extra name is a numeral, and
  none is a credential's name, a separator and ` [redacted]`. Two lemmas build a value for each kind
  of clash, and a policy can bring about either (`RedactClashes.PoliciesCanClash`). Names that end in
  no bracket and are no numerals are safe (`RedactTheorems.NoClash`). The first item of a
  `[name, credential]` pair is kept as written.
- LIKE on a packed column is list membership exactly for names without a comma
  (`PackedLists.MembershipIff`); a name with a comma can match across neighbouring elements.
- Filtering by an action's own program or verb finds it exactly when `str.lower` and ASCII folding
  agree on its name: the query is lowered by Python and the column by SQLite
  (`QueryTheorems.OwnNameFound`).
- Of a file's annotations the reader checks only the newest one's links, so adopting a chain can
  fail; `Repository.ChainInstalls` says exactly when, and no ref has moved then. Any file whose run
  loads with them can be given two annotations that are read and that no store without what the first
  one links to takes (`Repository.LooseChainRefused`).
- `unbundle` is documented as all or nothing. Locks and the disk aside, it is for every failure but
  one: signatures are merged after the refs have moved, and a full sidecar then fails the import with
  the refs at their new values. `RefRepo.Overfull` says exactly when: some run is brought an entry it
  does not hold, and with it would hold more than 256 entries or 4 MiB. Any bundle that verifies,
  moves a ref and brings a signature meets sidecars, within those limits, that make it fail
  (`RefRepo.NotAllOrNothing`). A bundle may also carry up to 10,000 refs while one transaction takes
  4,096; such an import fails and moves nothing.
- Import and then export is documented as byte-identical. It need not give the file back, or give
  anything: the blocks kept for the file's newest annotation add up over imports, and an artifact
  takes no more than 16. `RoundTrips.ImportThenExport` gives the exact result. With the file's own
  chain the export is the file with the blocks already kept for its head put before its own, each
  once, and it succeeds exactly when those are at most 16 and the whole is within the size limit; so
  it is the very file when none were kept, its own differ and it fits. With the repository's own chain
  it also fails when that is longer than 1,024 or its newest annotation does not load with the run.
- `bisect run` stops after 64 rounds even when items are still open. Among 10,000 candidates k skips
  end within 16 + k rounds for k up to 48, so 48 always finish; 49 need not, and
  `BisectCap.StubbornUnfinished` is an evaluator that shows it (`BisectCap.CapIff`).
- The 10,000-round cap of the lineage walk is sharp: one more link, with the edges listed last
  first, is lost (`Lineage.CapIsSharp`).
- The ATIF export is documented to import back to the same usage. ATIF can carry it exactly when a
  human or subagent step has none, and any other step has none under another name than the six
  buckets, no one-hour cache writes (they come back as five-minute ones) and no number too large to
  read (`AtifUsage.UsageRestored`). The exporter nests without bound while the importer follows 1,000
  trajectories, no more than eight deep. `AtifImport.StepRestored` is exact of a whole run: a step's
  usage comes back when it has none, or when it can be carried and its trajectory is followed, which
  with no more than 1,000 trajectories means under at most eight subagents. All are followed exactly
  when there are no more and none is deeper (`AtifImport.AllFollowedIff`).
- A reference that names no step is captured by a restored step id exactly when it has that very
  text (`StepIds.ReferenceKept`); references to events and empty ones never are.

## Model

| member | source | states |
|---|---|---|
| `CborDecoder.Reader.Take` | opentine/_cbor.py:37-42 | takes exactly n bytes from the cursor, or refuses past the input and moves nothing |
| `CborDecoder.Reader.ReadNextHead` | opentine/_cbor.py:44-51 | the cursor-moving head reader agrees with the pure one, and stops where it says |
| `CborDecoder.Reader.Item` | opentine/_cbor.py:53-90 | the recursive descent, with its item budget and depth budget, computes the decoding function: value, cursor and items counted |
| `CborDecoder.Reader.ArrayItems` | opentine/_cbor.py:71-77 | the array loop fills its list with the decoded items in order |
| `CborDecoder.Reader.MapEntries` | opentine/_cbor.py:78-87 | the map loop fills its entries in order and refuses a key that is no unique int or text |
| `CborDecoder.LoadsMethod` | opentine/_cbor.py:103-110 | loads is the decoding of one item at position 0 followed by nothing |
| `CborDecoder.Dumps` | opentine/_cbor.py:122-144 | dumps writes the encoding function for every encodable value and fails for every other |
| `CborDecoder.ReadItem` | opentine/_cbor.py:53-100 | on every input decoding ends, with the cursor within bounds and no more items counted than bytes consumed |
| `CborTheorems.HeadRoundTrip` | opentine/_cbor.py:44-51 | a shortest-form head followed by anything is read back as its major type and argument |
| `CborTheorems.HeadPreferred` | opentine/_cbor.py:113-119 | no head that reads as an argument is shorter than the one written, and no other has its length (RFC 8949 section 4.1) |
| `CborTheorems.ItemRoundTrip` | opentine/_cbor.py:53-90 | decoding an encoded value followed by any bytes succeeds exactly when it fits the depth and item limits, gives the value and stops at its last byte |
| `CborTheorems.LoadsDumps` | opentine/_cbor.py:103-144 | loads(dumps(v)) is v exactly when v fits the depth, item and size limits, and fails otherwise |
| `CborTheorems.TrailingRefused` | opentine/_cbor.py:107-110 | an encoded value followed by one more byte or more is refused |
| `CborTheorems.PrefixFree` | opentine/_cbor.py:122-144 | dumps is injective and no encoding is a prefix of another (RFC 8949 section 3) |
| `CborTheorems.ItemReadBack` | opentine/_cbor.py:53-100 | whatever is decoded was within the limits and, when float-free, encodes in no more bytes than were read |
| `CborTheorems.DumpsLoads` | opentine/_cbor.py:103-144 | every accepted input with a float-free value re-encodes to no more bytes, to the same bytes when the lengths agree, and decodes back to the value |
| `Utf8Text.Utf8Iff` | opentine/_cbor.py:64-70 | a text is accepted exactly when its bytes are the UTF-8 form of some sequence of code points that are no surrogates (RFC 3629 section 3) |
| `CborExamples.ScalarsWritten` | opentine/_cbor.py:113-144 | integers, simple values and strings are written as in the examples of RFC 8949 appendix A |
| `CborExamples.CollectionsWritten` | opentine/_cbor.py:113-144 | and so are arrays, maps and tags |
| `CborExamples.SimpleLoads` | opentine/_cbor.py:92-100 | false, true and null are each read from exactly two forms |
| `CborExamples.DepthLimit` | opentine/_cbor.py:53-57 | arrays nested sixteen deep are read and no deeper |
| `CborExamples.ItemLimit` | opentine/_cbor.py:53-57 | an array and its elements are read when they are at most 100,000 items |
| `CborExamples.KeysAre` | opentine/_cbor.py:78-87 | a map key is an int or a text |
| `CborExamples.EncodableFloatFree` | opentine/_cbor.py:122-144 | what can be written holds no float |
| `ObjectGraph.Closure` | opentine/_artifact_v4.py:106-118 | the worklist stops on every graph, cyclic or not; it returns exactly what the root reaches, or fails exactly when a reachable link is missing |
| `ObjectGraph.ClosureUnique` | opentine/_artifact_v4.py:106-118 | a root has one closure, so two walks over one object map agree |
| `ObjectGraph.ClosureTransfers` | opentine/_artifact_v4_repo.py:36-48 | a larger store that agrees on a closure has the same closure |
| `ObjectGraph.ClosureOfClosure` | opentine/_artifact_v4.py:200-200 | the closure of a written artifact is itself |
| `ObjectGraph.PostOrder` | opentine/_artifact_v4_repo.py:100-115 | the explicit-stack loop ends although nodes are pushed repeatedly, and returns the reachable objects, each once, each after all its links |
| `BundleRepo.ReadV4` | opentine/_artifact_v4_read.py:34-92 | the reader accepts an artifact exactly when its objects are the closure of its root, its annotations are one chain on it, oldest first, it has at most 16 blocks of the one scheme, and the run loads with its newest annotation, whose links are all there |
| `BundleRepo.LoadableIs` | opentine/_artifact_v4_read.py:72-92 | a run without annotations loads as it is; one with them, with the newest, each link of which is an object or an annotation of the file |
| `BundleRepo.ChainIsStored` | opentine/_artifact_v4_repo.py:51-62 | walking back from the newest annotation inverts the oldest-first check |
| `BundleRepo.StoredChainUnique` | opentine/_artifact_v4_repo.py:51-62 | a head has one stored chain |
| `Repository.InstallKeepsSound` | opentine/_artifact_v4_repo.py:118-126 | one install keeps the store link-closed, whatever it is given |
| `Repository.PostOrderInstalls` | opentine/_artifact_v4_repo.py:100-153 | installing an artifact links first never fails on a missing link, succeeds exactly when the new objects pass the checks of their content, and leaves the store link-closed after every single object |
| `Repository.ChainInstalls` | opentine/_artifact_v4_repo.py:129-143 | an annotation chain installs exactly when each annotation links only to what is stored or earlier in the chain |
| `Repository.LooseChainRefused` | opentine/_artifact_v4_read.py:72-89 | two annotations that the reader accepts on any artifact whose run loads with the second, and that no store without the first one's other link takes |
| `TineRepo.Repo.Install` | opentine/_artifact_v4_repo.py:118-126 | installs an envelope or refuses it for a missing link, a broken chain or its content, as the install outcome says, and moves no ref |
| `TineRepo.Repo.AdoptChain` | opentine/_artifact_v4_repo.py:129-143 | the ref ends at the file's newest annotation with its chain stored exactly when the run had no head or its head is on the file's previous_id chain; otherwise refs and objects are the repository's own; a failure moves no ref |
| `TineRepo.OnFileChain` | opentine/_artifact_v4_repo.py:138-143 | an annotation is among the file's exactly when it is reached from the newest one over previous_id |
| `Sidecars.AddSignatures` | opentine/repository/_sig_sidecar.py:100-125 | the loop appends what was not held, each once, or writes nothing when that would be more than 256 entries or 4 MiB |
| `Sidecars.SidecarLength` | opentine/repository/_sig_sidecar.py:100-125 | the size that is checked is the length of the canonical JSON and newline that are written |
| `Sidecars.MergeTwice` | opentine/repository/_sig_sidecar.py:100-125 | adding in two steps holds what adding at once does, and fails exactly when that does |
| `Sidecars.BlocksAdded` | opentine/repository/_sig_sidecar.py:68-125 | adding blocks for a head adds to those read back there the ones that were not, and changes what is read back at no other |
| `TineRepo.Repo.InstallV4` | opentine/_artifact_v4_repo.py:146-167 | a refused file changes nothing; an accepted one stops at an object whose content fails, with every ref and block as it was, or has all its objects stored, the annotation head at the file's newest exactly when the old one is on the file's chain, its blocks added unless that fails, and then the caller's ref at the run, with the right counts |
| `TineRepo.ImportDecides` | opentine/_artifact_v4_repo.py:129-167 | an import takes the file's chain or keeps the repository's by that rule, and says which |
| `TineRepo.RefFitsIs` | opentine/repository/_refs.py:55-67 | heads, experiments and promotions name runs, annotations and coord name annotations, and an annotation head targets the run its ref is named after |
| `TineRepo.OidTextIs` | opentine/_artifact_v4_repo.py:85-97 | the text of an id names its kind, SHA-256 and the digest |
| `TineRepo.OidTextInjective` | opentine/_artifact_v4_repo.py:85-97 | an id can be told from its text, so blocks of different annotation heads stay apart |
| `TineRepo.Repo.ExportV4` | opentine/_artifact_v4_repo.py:76-97 | an export is the root, exactly its stored closure, its stored annotation chain and the blocks kept for its newest annotation; it succeeds exactly when that is an artifact within the size limit that the reader accepts |
| `TineRepo.StoredClosure` | opentine/_artifact_v4_repo.py:36-48 | the stored closure is exactly what the root reaches, or the object limit is passed |
| `TineRepo.ChainFrom` | opentine/_artifact_v4_repo.py:51-62 | the chain walked back from a head and reversed is the stored chain, or too long |
| `RoundTrips.ExportAfterImport` | opentine/_artifact_v4_repo.py:76-167 | after an import the run exports as the artifact's objects with the chain stored for it and the blocks kept for that, exactly when those are within the limits and load; with the file's own chain, as the file with the blocks of its head; another chain, its head and its blocks are as they were |
| `RoundTrips.ImportThenExport` | opentine/_artifact_v4_repo.py:76-167 | the same, run: import into a repository, then export from it; the very file back when no blocks were kept for its head, its own are distinct and it fits the size limit |
| `RoundTrips.HeadsOnlyAdvance` | opentine/_artifact_v4_repo.py:129-143 | over any sequence of imports each earlier annotation head lies on the previous_id chain of each later one |
| `StepIds.Graph.Add` | opentine/_graph_types.py:99-107 | a step is added after its parents, or refused and nothing changes |
| `StepIds.LoadedRun.Restore` | opentine/_artifact_v4_read.py:99-129 | when every step has a usable legacy id of its own, each step gets it, in place, and parents, causal links, refs and turns follow; otherwise nothing changes |
| `StepIds.NamesAreOwn` | opentine/_artifact_v4_read.py:99-114 | names exist exactly when every id of the order has a usable legacy id, and each id's name is that one |
| `StepIds.RenamedIsRestored` | opentine/_artifact_v4_read.py:115-135 | renaming by those names is giving every step its legacy id, field by field |
| `StepIds.OwnNamesOneToOne` | opentine/_artifact_v4_read.py:113-114 | counting the names decides whether two steps share one |
| `StepIds.ParentsRebuilt` | opentine/_artifact_v4_read.py:117-122 | no step misses a parent while the graph is rebuilt |
| `StepIds.GraphIsomorphic` | opentine/_artifact_v4_read.py:117-123 | order, contents and parent links are kept under the new names |
| `StepIds.CausalIsomorphic` | opentine/_artifact_v4_read.py:121-129 | causal links between steps hold under the new names exactly when they held before |
| `StepIds.RefsAndTurnsKept` | opentine/_artifact_v4_read.py:124-135 | refs and turns name the steps they named |
| `StepIds.ReferenceKept` | opentine/_artifact_v4_read.py:124-135 | a reference is captured by a restored name exactly when it named no step and has that very text |
| `StepIds.EventsUncaught` | opentine/_artifact_v4_read.py:107-112 | an unresolved event reference is never captured |
| `Redact.RedactValue` | opentine/_canon_redact.py:135-230 | the walk with its loops and its flag computes the cleaning function, whose masks are exactly the credentials (`RedactGuarantees.CleanRedacts`), and refuses exactly the values deeper than the bound |
| `RedactForms.CredentialForms` | opentine/_canon_redact.py:70-78 | a field name is a credential exactly when it, or it without a plural s, is listed or ends in a listed suffix |
| `RedactForms.SecretFlagForms` | opentine/_canon_redact.py:120-132 | an item sets a flag exactly when it starts with a hyphen, has at most 64 characters, no equals sign and no space, and what follows its hyphens is token, pass, auth or a credential |
| `RedactForms.CamelSpelled` | opentine/_canon_redact.py:49-62 | camel case reads as its words joined by underscores |
| `RedactForms.ScreamingSpelled` | opentine/_canon_redact.py:49-62 | upper case with underscores reads as the same in lower case |
| `RedactForms.ScreamingKebabSpelled` | opentine/_canon_redact.py:49-62 | and upper case with hyphens as the same with underscores |
| `RedactForms.KebabSpelled` | opentine/_canon_redact.py:49-62 | lower case with hyphens reads as the same with underscores |
| `RedactForms.SnakeSpelled` | opentine/_canon_redact.py:49-62 | lower case with underscores reads as it is |
| `RedactForms.QuotedSpelled` | opentine/_canon_redact.py:49-62 | quotes and blanks around a name do not hide it |
| `RedactForms.ProseForms` | opentine/_canon_redact.py:212-219 | a labelled text is prose exactly when it opens with a question word, or with an article and a noun of settings, as words |
| `RedactNames.BracketFieldName` | opentine/_canon_redact.py:49-62 | a name that ends in a bracket still does after stripping, unquoting and snake-casing |
| `RedactNames.OddName` | opentine/_canon_redact.py:70-78 | a name that ends in no letter is a credential only if the policy lists it |
| `RedactNames.PolicyIsUsual` | opentine/policies.py:14-27 | no policy makes `name` a credential, so a dict's name is always walked |
| `RedactTheorems.Idempotent` | opentine/_canon_redact.py:135-230 | redacting a redacted value changes nothing, across dict, header, flag, pair and label branches, when the extra names do not clash |
| `RedactTheorems.NoClash` | opentine/_canon_redact.py:146-148 | names that end in no bracket and are no numerals never clash |
| `RedactMasks.MaskedName` | opentine/_canon_redact.py:49-62 | a masked label reads as the trimmed label's name, the separator and the mask in lower case |
| `RedactMasks.MaskNameOfLabel` | opentine/_canon_redact.py:49-62 | and every field name of that form is what some masked label reads as |
| `RedactClashes.IdempotentIff` | opentine/_canon_redact.py:135-230 | under the names a policy can add, redaction is idempotent on all values exactly when those names do not clash |
| `RedactClashes.NumeralBreaks` | opentine/_canon_redact.py:85-101 | a listed numeral makes a value whose second redaction differs |
| `RedactClashes.MaskedTextBreaks` | opentine/_canon_redact.py:201-205 | a listed name that a masked label reads as makes a value whose second redaction differs |
| `RedactClashes.PoliciesCanClash` | opentine/policies.py:77-86 | a policy may list a numeral, and may list what a masked label reads as |
| `RedactGuarantees.ShapeKept` | opentine/_canon_redact.py:135-230 | keys, their order, list lengths, numbers, flags and nulls are kept; only values are masked or text relabelled |
| `RedactGuarantees.RedactedIsClean` | opentine/_canon_redact.py:135-230 | at every depth of a redacted value each credential field, header value, token, pass or auth text, labelled text, argument of a credential flag and pair partner is masked, or a count or mode the walk lets stand |
| `RedactGuarantees.ClearIff` | opentine/_canon_redact.py:135-230 | a value has nothing left to mask exactly when cleaning leaves it alone |
| `RedactGuarantees.CleanRedacts` | opentine/_canon_redact.py:135-230 | cleaning masks exactly the credentials: each field, item, label and flag argument is masked, walked or kept as what stands there asks |
| `RedactGuarantees.ArgumentHidden` | opentine/_canon_redact.py:120-200 | for every credential name n the text after `--n` in a list is the mask or a count, unless the flag itself was masked |
| `RedactGuarantees.NestRefused` | opentine/_canon_redact.py:144-145 | lists nested 768 deep are redacted and one deeper is refused |
| `RedactGuarantees.LevelsNeverGrow` | opentine/_canon_redact.py:144-145 | a redacted value is no deeper to walk, although the second walk may enter what the first one masked |
| `RedactGuarantees.RedactTwice` | opentine/_canon_redact.py:135-230 | every value that redaction accepts, up to the depth bound itself, redacts to one it accepts again and leaves alone |
| `LikePattern.LikeEscaped` | opentine/_actions_query.py:76-78 | an escaped value in a LIKE pattern matches itself in any case and nothing else |
| `LikePattern.LikeIsSubstring` | opentine/_actions_query.py:76-86 | LIKE on an escaped value between percent signs is a case-insensitive substring test, whatever the value holds |
| `LikePattern.LikeIsPrefix` | opentine/_actions_query.py:118-120 | without the leading percent sign it is a prefix test |
| `LikePattern.LikeIsSuffix` | opentine/_actions_query.py:139-140 | without the trailing percent sign it is a suffix test |
| `PackedLists.UnpackPacked` | opentine/_actions_db.py:47-49 | a packed column splits back into its elements, commas as spaces, empty ones dropped |
| `PackedLists.PackedMembership` | opentine/_actions_query.py:89-91 | for a name without commas LIKE on a packed column is list membership in any case |
| `PackedLists.MembershipIff` | opentine/_actions_query.py:89-91 | and it is membership for every list exactly when the name has no comma |
| `QueryTheorems.SelectsAll` | opentine/_actions_query.py:94-147 | parameters consumed left to right reach their own conditions: the statement holds exactly when each condition does on its own |
| `QueryTheorems.BoundsMean` | opentine/_actions_query.py:94-147 | the conditions compiled from a query hold of an action exactly when every filter does |
| `QueryTheorems.ActorMeans` | opentine/_actions_query.py:98-106 | a filter by tool, agent, model, provider or session alone selects the actions whose column of that name has the text |
| `QueryTheorems.DotsStripped` | opentine/_actions_query.py:134-134 | of a host filter the dots at its two ends are taken off and nothing else |
| `QueryTheorems.OwnNameFound` | opentine/_actions_query.py:89-91 | a filter by a program, or by a verb, finds every action that has it exactly when str.lower and ASCII folding agree on its name |
| `QueryCompiler.CompileQuery` | opentine/_actions_query.py:94-147 | the compiler, appending to its shared lists, produces a statement and parameters that select exactly the actions every filter holds of, each filter of its own column |
| `QueryCompiler.RedactedMisses` | opentine/_actions_query.py:155-168 | the difference of the two counts is the number of partly redacted actions the other filters keep and some command term drops |
| `QueryCompiler.FoundOrCounted` | opentine/_actions_query.py:155-168 | an action whose command before redaction met the query is found or counted among the misses |
| `IndexTables.DropKeeps` | opentine/_actions_db.py:112-117 | dropping a source empties it, leaves every other source as it read and orphans no path or host row |
| `IndexTables.InsertKeeps` | opentine/_actions_db.py:138-154 | an inserted action reads back after the others of its source; a reused id inherits no row |
| `IndexTables.ReadsBackAs` | opentine/_actions_db.py:156-180 | what a stored action reads back as |
| `IndexTables.NothingLost` | opentine/_actions_db.py:138-180 | an action reads back unchanged exactly when its verbs and programs have no commas or blanks and its written paths stand in path order |
| `ActionsDb.ActionIndex.Drop` | opentine/_actions_db.py:112-117 | removes the source and its rows from all four tables |
| `ActionsDb.ActionIndex.Insert` | opentine/_actions_db.py:138-154 | adds the action row under the next id, a path row for each path and a host row for each host |
| `ActionsDb.ActionIndex.Index` | opentine/_actions_db.py:119-136 | indexes a source not yet there, so its primary key cannot conflict, or records it as unreadable |
| `ActionsDb.ActionIndex.Sync` | opentine/_actions_db.py:95-110 | after any sync each key has the row of the last source under it, with exactly the actions of its run, or marked unreadable with none; nothing else is left; the report counts what was new, gone, unreadable and truncated; an index up to date is not written |
| `IndexOrder.OneAnswer` | opentine/_actions_db.py:156-163 | rows in ORDER BY order are determined by which rows they are |
| `TextOrder.BelowIs` | opentine/_actions_db.py:156-163 | ORDER BY compares texts by their first difference, a beginning below the whole |
| `IndexTheorems.SameAnswers` | opentine/_actions_db.py:95-163 | two indexes over the same stamps answer every statement alike, whatever syncs led to each |
| `IndexTheorems.EqualsFreshBuild` | opentine/_actions_db.py:95-180 | after any run of syncs rows() equals that of a fresh build over the last sources, and a second sync indexes and removes nothing |
| `IndexTheorems.StoredMatches` | opentine/_actions_db.py:138-154 | a filter reads the same in a stored row as in the action it was stored from |
| `IndexTheorems.Find` | opentine/_actions_query.py:150-152 | find runs the compiled statement and returns the first matching rows' actions, in order, up to the limit |
| `IndexTheorems.MatchingRowsFound` | opentine/_actions_query.py:150-152 | on a synced index those rows are, without repeats, exactly the kept actions of the indexed runs that meet every filter |
| `Bisect.ThresholdKept` | opentine/_bisect.py:51-76 | every reachable state keeps good below the threshold and bad at or above it; at the end the threshold is bad or a skipped item |
| `Bisect.EndsOnAChange` | opentine/_bisect.py:65-76 | whatever the verdicts, the range is always bounded by an item judged good and one judged bad |
| `Bisect.MarkShrinks` | opentine/_bisect.py:65-76 | a verdict on an open item removes it from the open set and lets nothing in |
| `Bisect.CurrentNearMiddle` | opentine/_bisect.py:54-60 | everything nearer the middle than the item to test was skipped |
| `Bisect.MarkHalves` | opentine/_bisect.py:54-76 | a verdict on the item to test halves the range, but for the skips |
| `BisectRounds.VerdictHalves` | opentine/_bisect.py:54-76 | past half the range a verdict keeps d items only by using up 2d - 1 skips for good |
| `BisectRounds.RoundCounts` | opentine/_cli_bisect.py:187-209 | each round brings the end a round nearer, skips included |
| `BisectRounds.FewSkips` | opentine/_cli_bisect.py:187-209 | k <= 48 skips among 10,000 candidates need at most 16 + k rounds |
| `BisectRounds.RoundsSuffice` | opentine/_cli_bisect.py:187-209 | with at most 48 skips 64 rounds leave nothing open |
| `BisectRounds.SkipsOnly` | opentine/_cli_bisect.py:187-209 | more open items than rounds, all skipped, are still open at the end |
| `BisectCap.StubbornUnfinished` | opentine/_cli_bisect.py:187-209 | an evaluator with 49 skips whose 64 rounds leave an item open |
| `BisectCap.CapIff` | opentine/_cli_bisect.py:187-209 | the cap is enough for every evaluator with at most k skips exactly when k is at most 48 |
| `BisectRun.BisectState.Current` | opentine/_bisect.py:54-60 | the open item nearest the midpoint, the lower of two, or none exactly when nothing is open |
| `BisectRun.BisectState.Mark` | opentine/_bisect.py:65-76 | moves good, bad or skipped and logs it, or refuses an item outside the range and changes nothing |
| `BisectRun.IndexOf` | opentine/_bisect.py:78-84 | an item is found exactly when the text is its name and no other's, or is nobody's name and begins its and no other's |
| `BisectRun.Start` | opentine/_bisect.py:87-96 | a bisect starts exactly when both items are found, good first, among at most 10,000 |
| `BisectRun.Run` | opentine/_cli_bisect.py:182-209 | the capped loop gives only the evaluator's verdicts, exit code 0 good, 125 skipped, any other from 1 to 127 bad and the rest an error, and is the bisection of 64 rounds: k <= 48 skips finish within 16 + k, none within ceil(log2(bad - good)), and more than 64 open items that all skip leave it unfinished |
| `BisectRun.ExitsDecide` | opentine/_cli_bisect.py:182-209 | a bound moved up only onto an item whose exit code is 0 and down only onto one whose code is neither 0 nor 125; when items fail from a threshold on, it stays in the range and is found, or was skipped |
| `BisectRun.SkipsAre125` | opentine/_bisect.py:171-178 | the items skipped, or to be skipped, are those the evaluator answers 125 for |
| `BisectScores.Scores` | opentine/_cli_bisect.py:83-98 | for every name the loops over the sorted, cut list choose among the 1,000 attestations with the smallest ids the one that may score it and outranks the rest: signed before unsigned, then the smaller id |
| `BisectScores.OneDecision` | opentine/_cli_bisect.py:70-98 | two lists of the same attestations, in whatever order they were written, give a name one decision |
| `Lineage.FoundDescend` | opentine/_agent_trust.py:107-134 | whatever the order and cycles of the edges, the walk finds only descendants, and all within 10,000 links |
| `Lineage.FoundExactly` | opentine/_agent_trust.py:107-134 | with at most 10,000 descendants it finds exactly them |
| `Lineage.ClosedHoldsAll` | opentine/_agent_trust.py:123-133 | descent is the least set with the root that no edge leaves |
| `Lineage.CapIsSharp` | opentine/_agent_trust.py:125-133 | a chain read backwards is followed one link a round, so what lies beyond the 10,000th is lost |
| `Lineage.OnlyNominationsMatter` | opentine/_agent_trust.py:120-122 | with a resolver the descendants depend only on which run ids the rows nominate |
| `Lineage.NominationsDecide` | opentine/_agent_trust.py:120-134 | and so do the refs found, up to 10,000 descendants |
| `Lineage.TrustResolver.LineageEdge` | opentine/_agent_trust.py:87-104 | the cached resolver gives the link a child claims exactly when child, parent, ref and spawn step all bear it out |
| `Lineage.FollowedEdges` | opentine/_agent_trust.py:87-122 | with a resolver the edges followed are those of nominated runs that child, parent, ref and spawn step bear out |
| `Lineage.FoundBornOut` | opentine/_agent_trust.py:87-134 | and every ref found but the root is the ref of such a run whose parent was found |
| `Lineage.LineageRefs` | opentine/_agent_trust.py:107-134 | the loop with its early stop computes the capped rounds, over the rows or over what the resolver recomputes; with a resolver every ref found is of a verified run whose verified parent lists its spawn step |
| `ForkHistory.IsAncestor` | opentine/_cli_git_sync.py:55-68 | yes exactly when the older run is among the first 10,000 of the newer run's stored forked_from line |
| `ForkHistory.StepsAdvanceAll` | opentine/_cli_git_sync.py:110-128 | steps that only move refs forward make every earlier value lie behind every later one |
| `BundleFile.OpenedLaid` | opentine/_bundle.py:109-111 | opening a laid-out container gives its manifest and pack |
| `BundleFile.OpenedUniquely` | opentine/_bundle.py:146-159 | a container that opens is the only one that opens to its content |
| `BundleFile.OpensIff` | opentine/_bundle.py:146-159 | what opens is exactly what can be laid out within the size limits |
| `BundleFile.Verify` | opentine/_bundle.py:146-191 | a bundle verifies exactly when it is the layout of a canonical manifest whose pack, refs and signatures check |
| `BundleFile.CheckRefs` | opentine/_bundle.py:168-185 | refs pass exactly when each is normal, local, typed and in the pack, and no two share a tracking ref |
| `BundleFile.RefsSoundIff` | opentine/_bundle.py:166-185 | they pass exactly when each is a local name of a ref, of a type its namespace allows, to an object of the pack, and no two are tracked at one place under any name |
| `BundleFile.TrackingInjective` | opentine/_bundle.py:204-205 | two refs with one tracking ref differ at most in heads/ |
| `BundleFile.TrackingNameIs` | opentine/_bundle.py:204-205 | heads/x is tracked at remotes/NAME/x and any other ref at remotes/NAME/ and its name |
| `BundleFile.TrackedApart` | opentine/_bundle.py:182-184 | no two refs of a sound bundle are tracked at one place |
| `BundleFile.AllowedIs` | opentine/repository/_refs.py:46-52 | what each namespace may name, spelled out |
| `RefNames.RefIff` | opentine/repository/_refs.py:14-43 | a name is a ref exactly when it is a namespace and a path of at most 512 characters whose parts are names of files on every system: no device, no lock file, no two dots, at most 240 characters |
| `RefNames.NormalizeRefIs` | opentine/repository/_refs.py:23-43 | a name means the ref it is, with or without refs/ before it |
| `RefNames.BundleSpace` | opentine/_bundle.py:46-46 | the name a bundle is imported under is one part of a path that starts with a letter or digit |
| `BundleFile.CreatedOpens` | opentine/_bundle.py:83-111 | a created bundle opens to what went in, and its manifest checks exactly when its refs and pack do |
| `RefRepo.Repo.UpdateRefs` | opentine/repository/_ref_txn.py:150-188 | every compare-and-swap is made, or none: it succeeds exactly when the rows are within the limit, of distinct refs, allowed, stored and as expected |
| `RefRepo.TrackingHolds` | opentine/_bundle.py:208-227 | each ref of a landed bundle is at its own id |
| `RefRepo.LandsTracked` | opentine/_bundle.py:204-227 | after an import each ref of the bundle is at its own tracking ref, heads/x at remotes/NAME/x, and all other refs are as they were |
| `RefRepo.UpdatesApply` | opentine/_bundle.py:215-227 | the collected updates are distinct, and applying them puts every tracking ref at the bundle's id and moves nothing else |
| `RefRepo.Repo.Import` | opentine/_bundle.py:208-228 | an import succeeds exactly when its conditions hold; then the tracking refs are the bundle's and all others untouched, and the sidecars hold what was brought; a failure has moved no ref unless a sidecar is overfilled |
| `RefRepo.Overfull` | opentine/_bundle_sigs.py:113-122 | merging fails exactly when some run is brought an entry it lacks and would hold more than 256 entries or 4 MiB, whatever the groups and their order; else every run holds what it held and then what was brought |
| `RefRepo.SignaturesSoundIs` | opentine/_bundle_sigs.py:92-110 | the signatures of a manifest pass exactly when each is of a run of the pack and is accepted, and each run named brings 1 to 256 entries |
| `RefRepo.FullSidecar` | opentine/repository/_sig_sidecar.py:106-125 | for any bundle that brings a signature there is a sidecar within its limits that it overfills |
| `RefRepo.NotAllOrNothing` | opentine/_bundle.py:208-228 | for every bundle that verifies, moves a ref and brings a signature, in any repository and any formats, there are sidecars within their limits with which its import fails after the refs have moved |
| `RefRepo.Repo.Unbundle` | opentine/_bundle.py:208-235 | succeeds exactly when the bundle verifies and imports; then heads/x is at remotes/NAME/x and no other ref has moved; one that does not verify changes nothing; it fails with refs moved exactly when it verifies, lands with a ref to move and overfills a sidecar; unforced, refs only move forward |
| `RefRepo.Repo.Pull` | opentine/_cli_git_sync.py:110-128 | succeeds exactly when the tracking ref is set (remotes/REMOTE/x for heads/x) and the ref is there already, or new or behind it and may name it; then the ref is at the remote's run and no other has moved |
| `RefRepo.Play` | opentine/_cli_git_sync.py:110-128 | over any run of pulls and unforced unbundles every earlier value of a ref is on the forked_from chain of every later one, and refs keep naming stored objects of the types their names allow |
| `HashChain.Chain` | opentine/_actions_manifest.py:54-61 | the loop gives every link of the chain |
| `HashChain.SeedIsNoLink` | opentine/_actions_manifest.py:49-61 | a seed is never read as a link |
| `HashChain.HeadBinds` | opentine/_actions_manifest.py:49-61 | equal heads mean equal run ids and digest lists, of whatever lengths, or an explicit collision |
| `HashChain.BuildBody` | opentine/_actions_manifest.py:64-95 | each line bears its action's digest and fields, each link is the hash of the one before, a colon and that digest, starting from the run's id, and the head is the last link |
| `HashChain.ManifestBinds` | opentine/_actions_manifest.py:64-95 | equal heads mean the same run and the same action records, or an explicit collision |
| `AtifUsage.UsageRestored` | opentine/_atif_export.py:47-110 | the usage read back from a step that is imported is its own exactly when ATIF can carry it: none on a human or subagent step, else the six buckets without one-hour writes, in readable numbers |
| `AtifUsage.ImportedIs` | opentine/trace/_transcript_usage.py:55-76 | each bucket of an imported usage: parts as recorded, totals without their parts, every cache write a five-minute one, and nothing for what is no count |
| `AtifOwners.Owners` | opentine/_atif_export.py:125-135 | the loop gives each step the owner its specification says |
| `AtifOwners.OwnerIsNearest` | opentine/_atif_export.py:125-135 | when parents come first an owner is the nearest subagent ancestor, and the root agent exactly when there is none |
| `AtifExport.Attach` | opentine/_atif_export.py:156-172 | the parent embeds the child once and refers to it once, from the result of the tool call that spawned it or else from an added item; its steps are untouched |
| `AtifExport.PlacedStep` | opentine/_atif_export.py:156-204 | attaching keeps a trajectory's items what they must be: its own steps in order, each tool call with the subagents it spawned in order, then one item for each other subagent |
| `AtifExport.ToAtif` | opentine/_atif_export.py:175-229 | each trajectory's items are its own steps in order, each tool call with the subagents it spawned, then an item for each other subagent; totals are of its own steps; the root totals, added up over the items of every step that is no subagent, are those of the plain steps |
| `AtifTheorems.StepsPartition` | opentine/_atif_export.py:178-193 | a step that is no subagent occurs once, in its owner's trajectory, and nowhere else |
| `AtifTheorems.SubagentsPartition` | opentine/_atif_export.py:194-204 | a subagent is embedded once, in its owner's trajectory, and referred to there once |
| `AtifTheorems.Reached` | opentine/_atif_export.py:194-228 | every trajectory is reached from the root |
| `AtifTheorems.ReachedOnce` | opentine/_atif_export.py:194-228 | and by one way only, so it stands once in the nested document |
| `AtifTheorems.TotalsAddUp` | opentine/_atif_export.py:208-224 | the root totals are the sum of what every trajectory counts for its own steps |
| `AtifTheorems.TotalOfBuckets` | opentine/_atif_export.py:208-224 | the prompt, completion and cached totals of the root are the sums of the usage buckets they stand for |
| `AtifIndex.Collect` | opentine/_atif.py:74-87 | the stack loop ends, indexes only subagents at most eight deep and at most 1,000 of them, and all that deep when the run has no more than 1,000 trajectories |
| `AtifImport.Importer.Subagents` | opentine/_atif.py:178-207 | of the first 1,000 references the indexed ones not imported yet are imported and queued, each once |
| `AtifImport.Importer.Trajectory` | opentine/_atif.py:89-111 | the recursion reads each trajectory's items in order, follows no more than 1,000 trajectories at most eight deep, each once, and every indexed subagent of what it follows when there are no more |
| `AtifImport.Import` | opentine/_atif.py:210-216 | the events are those of the followed trajectories' items; it fails only when there are too many |
| `AtifImport.EventsExactly` | opentine/_atif.py:113-176 | an event is read exactly when its trajectory is followed and its item is read as that: a human step as said, any other as a model's with the usage of its metrics, a tool call also as a tool's |
| `AtifImport.EventsInOrder` | opentine/_atif.py:89-111 | within a trajectory events stand in item order, a model's before its tool's |
| `AtifImport.AllFollowedIff` | opentine/_atif.py:74-111 | every trajectory is followed exactly when there are at most 1,000 and none is nested under more than eight subagents |
| `AtifImport.ReadExactly` | opentine/_atif.py:113-176 | a usage is read for a step exactly when its owner's trajectory is followed, the step has metrics, and the usage is what ATIF makes of them |
| `AtifImport.StepRestored` | opentine/_atif.py:74-176 | a step's usage comes back exactly when it has none, or its trajectory is followed and ATIF can carry it; with at most 1,000 trajectories that means at most eight subagents above it |
| `AtifImport.ExportThenImport` | opentine/_atif_export.py:175-229 | the same, run: export, then import |

## Left out

- SHA-256, Ed25519 and HMAC, sigstore, base64, zlib and canonical JSON: abstract functions, or not needed.
- SQLite, its transactions and rollback, file locks, journals, temporary files, keyed stamps and crash recovery: a transaction is one step, a table a sequence of rows.
- CBOR floats: the decoder reads their bits, the encoder refuses them, and no round trip is stated for them.
- CBOR text is its UTF-8 bytes: a text whose code points cannot be encoded (a lone surrogate) is not a value of the model; tuples are lists; a bytearray is bytes.
- The order of keys of RFC 8949 section 4.2.1, which the encoder does not produce.
- Case folding outside ASCII: names and patterns fold A to Z only, as SQLite does and as Python does for ASCII text.
- Redact.RedactValue: a tuple is a list, a dict key a string and a number its spelling; keys of other types and subclasses of str are not modelled.
- TineRepo.Repo.Install: what the checks of run graphs and event metrics look at is not modelled; they are one test of an envelope.
- TineRepo.Repo.InstallV4: the search index is left out.
- BundleRepo.ReadV4: the envelope spelling, the document keys, the limit on the bytes read and the conversion to a run object are left out; what the run loader asks besides the newest annotation's links is one test.
- ActionsDb.ActionIndex.Sync: an error inside the transaction, which SQLite rolls back, does not occur in the model; sources are dropped and indexed in any order.
- QueryCompiler.CompileQuery: a condition is its kind and its placeholders, not its text; no user text can reach it because none is a part of it.
- BisectRun.BisectState.Mark: the log has no timestamps, and a verdict is one of the three the command line offers.
- BisectScores.Scores: the verification of a signature and the comparison of a score with its threshold are left out.
- Walking a fork lineage back from BAD to GOOD, saving and loading the bisect state, and its annotations.
- Lineage.TrustResolver.LineageEdge: runs and manifests do not change while a resolver lives; adopting a run a caller already loaded is left out.
- RefRepo.Repo.Pull: what the fetch brings is a parameter, limited to tracking and annotation refs as the client is; a ref whose target is unreadable is read as its id.
- RefRepo.Repo.Import: storing a verified pack, and writing a sidecar within its limits, always succeed; locks, a shallow repository's boundaries and transparency receipts are left out.
- Sidecars.AddSignatures: a kept sidecar that no longer reads as one is not modelled.
- AtifImport.Import: the limits on a document's bytes and JSON nesting, the notes on what was skipped or not followed, and documents that are no export of a run are left out; a trajectory's id stands for its subagent's, so no two of the 24-digit hashes collide.
- HashChain.BuildBody: the run digest, identity and spawn list of the manifest body are left out; they are fields beside the chain.
- AtifExport.ToAtif: cost (floating point), messages, timestamps and the other fields of an item are left out; tokens are counted.
- Writing an artifact from a run (redaction, fork sources, provenance) and the conversion of runs between formats.
- Importers, exporters to other formats, network and subprocess code, agent hooks, rendering, argument parsing, key management and the TypeScript package.
