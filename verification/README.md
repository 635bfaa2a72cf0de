# Verification of the stack's release, probe and installation protocols

This project models five parts of the repository in Dafny and proves what they promise.

- `model/publish`: publishing a release on GitHub, composing the Pages site from all releases, and checking a
  composition right before it is deployed. The hosting is a state that others may change between calls and whose
  calls may fail before or after they take effect; a ghost history records what each call found and left, and the
  gates of a publication are stated of the entries of that history.
- `model/report`: the helper report protocol, from the C++ probes' bounded JSON writer, through a pipe, to the strict
  reader of the runtime. A writer class carries the source's output, frames and flags; ghost fields tie them to the
  partial document the calls describe.
- `model/install`: which native DNF transactions an installation plan accepts, what applying one does to the package
  database, and the check afterwards.
- `model/archive`: the scan of raw tar headers, the strict pax parser, a recursing tar reader that follows other rules,
  and the resolution of hardlinks in RPM payloads.
- `model/common`: byte strings, options, sorted lists, regrouping of concatenations, and runs that stop at the first
  failure.

Code that changes state step by step is a method or a class proved against a specification function or predicate;
what the source promises is proved about that specification. Run `dafny verify dfyconfig.toml` to check the project.

Where the code and its documentation differ, the model follows the code. Two results are exact conditions rather than
unconditional claims. The tar scan and a recursing reader agree for the types both callers allow, and for exactly the
sets of types such a reader knows and reads as the scan does (`TarReader.AgreesExactlyOnReadable`). The OpenVINO
program writes a report the reader accepts for every result but one kind, an enumeration that failed with a code of the
inference, which the probe does not produce (`Delivery.OpenVinoOutcomeValid`).

## Model

| member | source | states |
|---|---|---|
| `Composition.ComposeReleases` | scripts/ci/release_publish.py:652-732 | Returns a composition exactly when one exists: every candidate older than the pending version, one release per version, every release through its gates or matched with its retirement, every recorded version present |
| `Composition.HoldsOnce` | scripts/ci/release_publish.py:671-728 | A state and a registry have at most one composition, so the order in which releases are taken does not matter |
| `Pages.CheckPagesRoom` | scripts/ci/release_publish.py:772-795 | The dry run passes exactly when the version is unrecorded and some composition of the others meets the tag, live and budget gates; it returns that composition |
| `Pages.ComposePages` | scripts/ci/release_publish.py:798-832 | Returns the record of a composition that passes every gate, and returns none only when no composition passes |
| `Pages.SumBytes` | scripts/ci/release_publish.py:421-422 | The bytes of the composed site, in whatever order its versions are visited |
| `Pages.SiteBytesTake` | scripts/ci/release_publish.py:421-422 | Any version of a site can be counted first |
| `Pages.ServedExactly` | scripts/ci/release_publish.py:652-745 | After a successful composition exactly the published versions and the new one are served, exactly the retired ones are left out, the two sets are disjoint and together are all versions with a non-draft release, and each published one has its recorded digest |
| `DryRun.PublicationPasses` | scripts/ci/release_publish.py:433-465 | Files that pass the publication checks make a release that passes the composition gates, with the same site size |
| `DryRun.GatesAlike` | scripts/ci/release_publish.py:758-769 | Two releases with the same listing have the same gate outcome: the snapshot records everything a composition depends on |
| `DryRun.DryRunFaithful` | scripts/ci/release_publish.py:539-587 | If the room check passed, the listings and live files of the others are unchanged and the final check passed, compose-pages with this version as the new one passes every gate, whatever happened to drafts |
| `Publication.PublishState` | scripts/ci/release_publish.py:468-489 | Classifies a state as fresh, draft-resume or published-resume exactly when it is one of these, and refuses everything else |
| `Publication.StateUnique` | scripts/ci/release_publish.py:468-489 | No state of the hosting fits two classes |
| `Publication.CreatedKeeps` | scripts/ci/release_publish.py:551-554 | Creating the draft in the fresh state leaves a draft the next run resumes |
| `Publication.EditedKeeps` | scripts/ci/release_publish.py:555-560 | Setting title and notes keeps a resumable draft and its assets |
| `Publication.UploadedKeeps` | scripts/ci/release_publish.py:561-564 | Each upload keeps a resumable draft and adds exactly that asset |
| `Publication.UndraftedKeeps` | scripts/ci/release_publish.py:575-577 | Publishing a ready draft leaves exactly this publication released, with its tag at the commit |
| `Publisher.GitHub.CreateDraft` | scripts/ci/release_publish.py:551-554 | Under faults the call leaves the fresh state or the resumable draft |
| `Publisher.GitHub.EditDraft` | scripts/ci/release_publish.py:555-560 | Under faults the call leaves the draft resumable with the same assets |
| `Publisher.GitHub.UploadAsset` | scripts/ci/release_publish.py:561-564 | Under faults the call leaves the draft resumable, with the asset if it reports success |
| `Publisher.GitHub.UploadMissing` | scripts/ci/release_publish.py:561-564 | The upload loop completes the four assets in order, or stops at a resumable draft |
| `Publisher.GitHub.FillDraft` | scripts/ci/release_publish.py:555-568 | On success the draft carries this title, notes and assets and every asset reads back; undisturbed it is then ready to be published |
| `Publisher.GitHub.Recheck` | scripts/ci/release_publish.py:569-574 | Passes only when, in its own five calls, the draft was ready, the listings were those of the room check and what it composed was live |
| `Publisher.GitHub.Undraft` | scripts/ci/release_publish.py:575-577 | The request that publishes: with every fault it publishes exactly this draft under this tag, or leaves it resumable |
| `Publisher.GitHub.PublishDraft` | scripts/ci/release_publish.py:569-577 | Whatever a call here publishes, reported or not, comes right after the read-back and the five checks, and every exit leaves a resumable or released publication |
| `Publisher.GitHub.Confirm` | scripts/ci/release_publish.py:578-587 | Succeeds only when the release read last is this publication, immutable, with its tag at the commit |
| `Publisher.GitHub.Proceed` | scripts/ci/release_publish.py:550-587 | From each of the three states: every call that publishes comes right after the read-back and the last checks, also when its reply is lost; and what every exit leaves behind |
| `Publisher.GitHub.Open` | scripts/ci/release_publish.py:547-550 | The nine calls before the first write: the room check between two equal listings, and the classification, each of what its own calls read; none of them writes |
| `Publisher.GitHub.PublishRelease` | scripts/ci/release_publish.py:539-587 | Whatever others do and whichever call fails, and whether or not the run then succeeds, each of its calls that publishes comes after every gate passed in earlier calls of the same run, in order; success means moreover that the release read last is this publication; undisturbed, every exit is resumable, a published state is not written to, a run without faults succeeds, and whatever was published is composed by compose-pages |
| `Publisher.GitHub.PublishWithRetries` | scripts/ci/release_publish.py:539-587 | Runs one after the other: when calls stop failing within the first n calls, one of n + 1 runs reaches the one final release; nothing else has changed, and every run publishes behind its own gates |
| `Publisher.RoomKept` | scripts/ci/release_publish.py:772-795 | The room check does not depend on what a crashed run of this version left |
| `Publisher.PublishedThenComposes` | scripts/ci/release_publish.py:539-587 | Where the room check passed before, the released publication is composed with the versions of the room check and the new one |
| `Registries.LoadRegistry` | scripts/ci/release_publish.py:596-613 | Accepts exactly the files whose entries are readable and name each version once over both lists, and returns them as two disjoint maps |
| `Registries.LoadRows` | scripts/ci/release_publish.py:602-612 | One list: readable, with a reason that says something where one is needed, unrepeated and apart from the versions already seen |
| `Deployment.CheckDeploy` | scripts/ci/release_publish.py:850-894 | Passes exactly when the record is of the committed version, that is the newest release, the record serves exactly the unretired releases with their sums, ids and commits, every tag is recorded and the other live sums agree |
| `Deployment.CheckedRecordRecomposes` | scripts/ci/release_publish.py:850-894 | A record that passes check-deploy in a later state equals the record of composing again in that state: versions, digests, commits, sizes and files left out |
| `Deployment.StepServes` | scripts/ci/release_publish.py:850-894 | One checked deployment changes no live sums but those of the version it deploys, and that version is the newest release |
| `Deployment.OnlyItsOwnDeployment` | scripts/ci/release_publish.py:748-755 | Over any run of checked deployments a version whose live sums changed or appeared was itself deployed in between, as the newest release |
| `Deployment.DroppedStaysDropped` | scripts/ci/release_publish.py:100-114 | A version that is off the site while a newer one is released is not brought back by any deployment |
| `Utf8.ValidIffUtf8` | native/common/json_writer.cpp:19-76 | The tests on lead and continuation bytes accept exactly the concatenated encodings of scalar values of section 4 of RFC 3629 |
| `Utf8.IsValidUtf8` | native/common/json_writer.cpp:19-76 | The loop answers exactly whether the bytes are such a concatenation |
| `Json.ParseCharsUndoesPrint` | native/common/json_writer.cpp:152-190 | Unescaping the quoted form by section 7 of RFC 8259 gives the original bytes back, whatever follows |
| `Json.PrintStringValid` | native/common/json_writer.cpp:144-191 | The quoted form of UTF-8 text is UTF-8 |
| `Json.PrintValid` | native/common/json_writer.cpp:80-302 | The text of every well-formed tree is UTF-8 |
| `Json.ParseUndoesText` | native/common/json_writer.cpp:80-302 | A full parser for sections 2 to 7 of RFC 8259 reads the text of a tree, with white space after it, as that tree |
| `JsonText.ApplyText` | native/common/json_writer.cpp:119-250 | The bytes of a partial document after one more event are those before, the separator and the token |
| `JsonCalls.ApplyEvents` | native/common/json_writer.cpp:205-302 | The partial document after one more event is the one described by the events so far and that event |
| `JsonRuns.RunSound` | native/common/json_writer.cpp:205-302 | After any calls that all pass, the document has exactly their events, its text extends the earlier text and stays within the bound |
| `JsonRuns.RunTree` | native/common/json_writer.cpp:205-293 | Calls with the events of an admissible tree, given room for its text, all pass and add that tree |
| `JsonRuns.RunIffDescribes` | native/common/json_writer.cpp:205-302 | A run from an empty writer passes and finishes with a root exactly when its events are those of that admissible tree and its text fits |
| `JsonRuns.DescribedTreeParses` | native/common/json_writer.cpp:295-302 | The calls describe one tree at most, and its text parses back to it |
| `JsonWriter.Writer.Append` | native/common/json_writer.cpp:99-111 | Appends within the bound or throws and changes nothing |
| `JsonWriter.Writer.BeforeValue` | native/common/json_writer.cpp:119-142 | Throws exactly where no value may come; else leaves the separator written and the place taken |
| `JsonWriter.Writer.AppendQuoted` | native/common/json_writer.cpp:144-191 | Throws for a long text, then for one that is no UTF-8, then for lack of room; else appends the quoted form |
| `JsonWriter.Writer.BeginObject` | native/common/json_writer.cpp:205-209 | Throws what the grammar and the bounds say and else extends the document by an opening brace |
| `JsonWriter.Writer.EndObject` | native/common/json_writer.cpp:211-219 | Throws unless an object without a pending key is innermost; else closes it |
| `JsonWriter.Writer.BeginArray` | native/common/json_writer.cpp:221-225 | Throws what the grammar and the bounds say and else extends the document by an opening bracket |
| `JsonWriter.Writer.EndArray` | native/common/json_writer.cpp:227-234 | Throws unless an array is innermost; else closes it |
| `JsonWriter.Writer.Key` | native/common/json_writer.cpp:236-250 | Throws unless a key is due and its text and room are right; else writes it with its separator |
| `JsonWriter.Writer.NullValue` | native/common/json_writer.cpp:252-255 | Writes null where a value may come |
| `JsonWriter.Writer.Boolean` | native/common/json_writer.cpp:257-260 | Writes true or false where a value may come |
| `JsonWriter.Writer.UnsignedInteger` | native/common/json_writer.cpp:262-270 | Writes the decimal text of the number where a value may come |
| `JsonWriter.Writer.DecimalNumber` | native/common/json_writer.cpp:272-288 | Refuses a non-finite number; else writes its text where a value may come |
| `JsonWriter.Writer.Str` | native/common/json_writer.cpp:290-293 | Writes a quoted text where a value may come |
| `JsonWriter.Writer.Finish` | native/common/json_writer.cpp:295-302 | Returns the output exactly when one complete root is written, and the output parses to the tree the calls described |
| `JsonPlans.PlanRuns` | native/common/json_writer.cpp:205-302 | The calls that write an admissible tree whose text fits run through, from an empty writer to the finished tree |
| `StrictJson.StrictIffUnrepeated` | crates/stack-runtime/src/strict_json.rs:77-102 | A tree is taken exactly when no object in it, at any depth, repeats a key |
| `StrictJson.StrictMembersHolds` | crates/stack-runtime/src/strict_json.rs:88-102 | A taken object has exactly the members written, each with its taken value |
| `StrictJson.Visit` | crates/stack-runtime/src/strict_json.rs:19-26 | The visitor returns the strict value of the tree, or refuses it |
| `StrictJson.VisitSeq` | crates/stack-runtime/src/strict_json.rs:77-86 | The loop over an array takes every item in order, or refuses |
| `StrictJson.VisitMap` | crates/stack-runtime/src/strict_json.rs:88-102 | The loop over an object takes every member once, or refuses |
| `Reports.RecordReads` | crates/stack-runtime/src/protocol.rs:194-213 | An object written with distinct keys reads back field by field under exactly those keys |
| `Reports.ObservationsRead` | crates/stack-runtime/src/protocol.rs:268-293 | The observations of every valid report read back as themselves |
| `ReportText.ReportFits` | native/common/protocol.hpp:10-13 | Every valid report, 64 devices of 256 bytes in two lists included, stays below 65536 bytes with its newline |
| `ReportText.ReportRoundTrip` | crates/stack-runtime/src/protocol.rs:168-266 | The line written for a valid report is parsed to that very report |
| `ReportText.AcceptedIsValid` | crates/stack-runtime/src/protocol.rs:168-266 | Whatever the reader accepts is a valid report of the probe and mode asked for |
| `Ordering.SortUniqueAscending` | native/level_zero/probe.cpp:91-92 | Sorting and dropping equal neighbours keeps exactly the elements, in strictly ascending order |
| `Ordering.SortUniqueFixed` | native/openvino/probe.cpp:121-122 | A strictly ascending list is left as it is |
| `ReportWriter.ValidReportRuns` | native/openvino/probe.cpp:202-262 | No writer call throws for a valid report, and what is rendered is its text |
| `ReportWriter.BeginReport` | native/openvino/probe.cpp:75-83 | The header calls, in order, or the exception of the first that throws |
| `ReportWriter.WriteFailure` | native/openvino/probe.cpp:85-93 | The calls of a failing report after its header |
| `LevelZeroProbe.HexQuadOf` | native/level_zero/probe.cpp:20-32 | Out of range above 16 bits; else the four digits, written from the last to the first |
| `LevelZeroProbe.HexQuadRoundTrip` | native/level_zero/probe.cpp:20-32 | The four digits denote the value |
| `LevelZeroProbe.HexQuadOrder` | native/level_zero/probe.cpp:34-42 | The order of the fixed-width texts is the order of the numbers |
| `LevelZeroProbe.MapDevices` | native/level_zero/probe.cpp:64-99 | The distinct VPU identities in ascending order; which failure for records out of bounds, no VPU or too many; and always a result whose report is valid |
| `LevelZeroProbe.RenderReport` | native/level_zero/probe.cpp:182-231 | Refuses both or neither of devices and error, and more than 64 devices; else renders the report, and a valid report as its text |
| `OpenVinoProbe.NamesAgree` | native/openvino/probe.cpp:36-65 | The probe and the reader accept the same device, NPU and version texts |
| `OpenVinoProbe.NormalizeDevices` | native/openvino/probe.cpp:113-124 | The loop, sort and erase compute the normalised list |
| `OpenVinoProbe.NormalizedIsAscending` | native/openvino/probe.cpp:113-124 | The normalised list holds exactly the kept names, each once, strictly ascending, and leaves such a list alone |
| `OpenVinoProbe.NormalizeRuntimeVersion` | native/openvino/probe.cpp:126-135 | The longest prefix of version bytes, unless it is empty or too long |
| `OpenVinoProbe.EnumerationRendersIffValid` | native/openvino/probe.cpp:102-109 | A passing enumeration is rendered exactly when the reader accepts its report |
| `OpenVinoProbe.InferenceRendersIffValid` | native/openvino/probe.cpp:226-240 | A passing inference is rendered exactly when the reader accepts its report |
| `OpenVinoProbe.ValidatedRenders` | native/openvino/probe.cpp:137-153 | Whatever the enumeration validator returns is rendered as a report the reader accepts |
| `OpenVinoProbe.InferredRenders` | native/openvino/probe.cpp:325-366 | A validated enumeration with checked and normalised execution devices is rendered as a report the reader accepts |
| `OpenVinoProbe.RenderEnumerateReport` | native/openvino/probe.cpp:202-224 | Any result but a clean failure or a normalised enumeration is refused; else its report is rendered |
| `OpenVinoProbe.RenderInferReport` | native/openvino/probe.cpp:226-262 | Any result but a clean failure or a normalised inference is refused; else its report is rendered |
| `Channel.Descriptor.WriteAll` | native/common/report_channel.hpp:45-55 | Under every schedule of partial writes, interruptions and errors: written exactly when the attempts before a fatal one can take the whole text, refused exactly when a fatal one comes first, and how much was taken either way |
| `Channel.Descriptor.WriteLine` | native/common/report_channel.hpp:40-42 | Written exactly when the text and then the newline go through; refused only by a fatal attempt; otherwise a prefix is out |
| `Channel.LineGoesThrough` | native/common/report_channel.hpp:40-55 | Without a fatal attempt, any mixture of interruptions and partial writes lets a line through once enough attempts take something |
| `Channel.Capture` | crates/stack-runtime/src/process.rs:155-180 | Whatever the chunk sizes, the capture is the prefix of the stream up to the limit, and overflow holds exactly when the stream is longer |
| `Delivery.LineIsReceived` | crates/stack-runtime/src/inspect.rs:386-420 | However the line of a valid report is cut into chunks, the runtime receives that report, without overflow |
| `Delivery.RunLevelZero` | crates/stack-runtime/src/inspect.rs:386-420 | From the result to the report: over every schedule of writes and every cut into reads the runtime gets exactly the report of the result, or none, and gets it whenever no attempt is fatal and enough take something |
| `Delivery.RunOpenVino` | crates/stack-runtime/src/inspect.rs:386-420 | The same for the OpenVINO probe in both modes |
| `Delivery.LevelZeroOutcomeValid` | native/level_zero/main.cpp:15-32 | The program reports the result itself whenever its report is valid |
| `Delivery.OpenVinoOutcomeValid` | native/openvino/main.cpp:18-45 | The program reports something the reader accepts for every result, except an enumeration that failed with a code of the inference |
| `Delivery.LevelZeroProgram` | native/level_zero/main.cpp:15-32 | Writes the line of its result, or of an internal failure when rendering throws, exactly when the descriptor lets that line through |
| `Delivery.OpenVinoProgram` | native/openvino/main.cpp:18-45 | Writes the line of its result, or of an internal failure when rendering throws, exactly when the descriptor lets that line through |
| `Identities.IdentityDenotes` | crates/stack-install/src/fedora.rs:453-456 | The one-string identity splits back into the name, version and architecture it was made of, dashes and dots in names and a dropped zero epoch included |
| `Identities.IdentityInjective` | crates/stack-install/src/fedora.rs:453-456 | No two admitted packages share an identity |
| `Inventories.ParseQuery` | crates/stack-install/src/inventory.rs:32-83 | Accepts exactly complete, bounded output of valid lines without a repeated identity, never an empty one, and returns exactly their records |
| `Inventories.SplitIffJoins` | crates/stack-install/src/inventory.rs:38-44 | The pieces of a text are exactly the separator-free ones that join to it |
| `NativePlan.CollectNeeds` | crates/stack-install/src/fedora.rs:183-212 | The packages that have to come in and what they replace, exactly when names are distinct and none is installed twice or at a version that is not older |
| `NativePlan.NeedsOnce` | crates/stack-install/src/fedora.rs:183-212 | What is needed is determined by the inputs and the inventory |
| `NativePlan.MatchRows` | crates/stack-install/src/fedora.rs:234-283 | Accepts exactly the rows that fit, none twice, as many as needed, and binds each incoming row to its package |
| `NativePlan.ParseInputs` | crates/stack-install/src/fedora.rs:166-290 | A plan exactly when the transaction is the one the inputs and the inventory need, and no transaction exactly when nothing is needed; and what the plan binds |
| `NativePlan.PlanSorted` | crates/stack-install/src/fedora.rs:284 | The plan lists exactly the bound rows, in the order of their identities |
| `NativePlan.ParseWithDependencies` | crates/stack-install/src/fedora.rs:144-164 | The same for validated release packages with dependencies, within the limits, and the same plan |
| `NativePlan.ParseInstall` | crates/stack-install/src/fedora.rs:69-122 | A plan exactly for the documents whose rows install the expected packages, identities and paths distinct; it binds each row to the package of its identity |
| `FirstInstall.RowsAndPackagesMatch` | crates/stack-install/src/fedora.rs:85-115 | The rows of an accepted first installation and the expected packages are in bijection |
| `FirstInstall.PlanBindsEach` | crates/stack-install/src/fedora.rs:69-122 | The plan of an accepted first installation binds every expected package once, in the order of the identities |
| `Transactions.RowsCover` | crates/stack-install/src/fedora.rs:234-283 | The rows of an accepted transaction name exactly the needed identities |
| `Transactions.AfterHolds` | crates/stack-install/src/fedora.rs:183-283 | Applying the rows keeps the records nothing takes the place of and adds the new ones, and does nothing else |
| `Transactions.ExpectedReached` | crates/stack-install/src/fedora.rs:166-290 | After an accepted transaction every expected package is installed exactly once at its exact version for its architecture |
| `Transactions.OthersUntouched` | crates/stack-install/src/fedora.rs:166-290 | Every record of another name or architecture is as it was |
| `Transactions.NeverLowers` | crates/stack-install/src/fedora.rs:195-206 | A record that goes away makes room for a later version of its name and architecture |
| `Transactions.ReplanIsEmpty` | crates/stack-install/src/fedora.rs:213-223 | Planning the same inputs again on the resulting inventory, without a transaction, is accepted and plans nothing |
| `Transactions.AcceptedReaches` | crates/stack-install/src/fedora.rs:166-290 | Whatever is accepted, applied to the inventory it was accepted for, installs every expected package once at its version, leaves other records alone, lowers nothing, and leaves a valid inventory with nothing more to plan |
| `Transactions.AfterIsValid` | crates/stack-install/src/inventory.rs:32-83 | The resulting inventory is one the query could have returned |
| `Lifecycle.SelectedPackages` | crates/stack-install/src/manifest.rs:176-207 | The selection, or a refusal when a requested role has no package |
| `Lifecycle.SelectionHolds` | crates/stack-install/src/manifest.rs:176-207 | The selection holds exactly the packages of the requested roles, sorted by name |
| `Lifecycle.VerifySelected` | crates/stack-install/src/lifecycle.rs:40-69 | Every selected package exact, and the names whose exact record was not there before |
| `Lifecycle.VerifyInstallation` | crates/stack-install/src/lifecycle.rs:31-113 | Succeeds exactly when the selection is exact and no other release package moved; reports the names and the capabilities of changed providers |
| `Lifecycle.PendingHolds` | crates/stack-install/src/lifecycle.rs:94-105 | A capability is pending exactly when some component has it whose provider changed and waits for that activation |
| `Lifecycle.PlannerAndCheckAgree` | crates/stack-install/src/lifecycle.rs:31-113 | After an accepted transaction the check passes, and reports as pending exactly the reboot or relogin capabilities whose provider is a release package with an Install or Upgrade row |
| `Pax.ParsesExactlyPax` | scripts/ci/release_tar.py:67-79 | The strict parser accepts exactly concatenations of records whose length counts the whole record, and returns their entries in order |
| `Pax.PaxKeys` | scripts/ci/release_tar.py:67-79 | The loop returns the keys of the records in order, or refuses anything that is no such concatenation |
| `Pax.LinesAreRecords` | scripts/ci/release_tar.py:74-76 | On accepted data each line is one record: the split by length is the split by newline |
| `Pax.ParseUndoesPrint` | scripts/ci/release_tar.py:67-79 | Entries printed with lengths that count themselves read back as those entries |
| `TarScan.ScanHeader` | scripts/ci/release_tar.py:93-130 | One round of the scan: the counters, the checks in their order, and how far the stream is moved |
| `TarScan.Scan` | scripts/ci/release_tar.py:82-130 | The number of headers of an accepted stream, at most the limit; accepted or refused, the stream is not moved past 512*(limit+1) + 511*limit + MAX_EXTENSION_TOTAL + max_bytes |
| `TarReader.LooseAgrees` | scripts/ci/release_tar.py:118-124 | What the strict parser accepts, a parser up to a NUL in the zero padding reads as the same entries |
| `TarReader.MemberAgrees` | scripts/ci/release_tar.py:89-130 | On one member of an accepted stream the recursing reader reads the headers the scan counts, in order, and goes on where the scan does |
| `TarReader.ReaderAgrees` | scripts/ci/release_tar.py:5-22 | On every accepted stream the recursing reader visits exactly the scanned header offsets, never deeper than MAX_RUN plus one |
| `TarReader.AgreesExactlyOnReadable` | scripts/ci/release_tar.py:33-37 | Scan and reader agree on all accepted streams exactly when the caller allows only types the reader knows and reads as the scan does |
| `TarReader.SparseParts` | scripts/ci/release_tar.py:33-37 | With old GNU sparse allowed they visit different headers: the reader takes the second block for more of the map |
| `TarReader.UnknownParts` | scripts/ci/release_tar.py:33-37 | With an unknown type allowed they visit different headers: the reader skips the second block as data |
| `TarReader.CallersReadable` | scripts/ci/release_tar.py:33-37 | The types both callers allow are such types |
| `Hardlinks.Resolve` | packaging/fedora/44/package-gate.py:96-100 | Succeeds exactly when every chain of links ends at a regular file, gives every link the file at the end of its chain, and leaves the files alone |
| `Hardlinks.OneEnd` | packaging/fedora/44/package-gate.py:96-100 | A chain has at most one file at its end, so the order of resolution does not matter |

## Left out

- HTTP, paging, redirects, container, DNF, rpm, gpg and git subprocesses, temporary directories and file-system races: they are state steps, parameters or left out.
- SHA-256 is an injective function; signature policy, archive unpacking, canonical packing, the signed identity, the rendered notes, site sizes and the parse of SHA256SUMS are functions of the bytes they read, the same ones for publication and composition.
- Composition.ComposeReleases: reads one state, although the source reads over many calls; `Publisher` lets others act between the reads of releases, tags and live sums, but a composition reads each of these three at one moment.
- Publisher.GitHub.FillDraft: the read-back is one call, although the source downloads the assets one by one; following an annotated tag to its commit is part of the call that reads the tag.
- Composition.ComposeReleases: takes the releases in any order, although the source sorts them, because only the first refusal depends on it.
- Deployment.CheckDeploy: the shape of the Pages manifest file and its base URL are not modelled; a record of another version is refused.
- Registries.LoadRows: whether the fields of one entry are readable is part of the input.
- Publication.PublishState: an API listing that names one asset twice is not modelled; assets are a map.
- check_unpublished repeats checks that are modelled, and verify_live waits for the network: both are left out.
- JsonWriter.Writer.constructor: does not model the refusal of zero bounds, because a constructor of this language cannot return an exception.
- JsonWriter.Writer.DecimalNumber: does not model how a double is formatted; its text is a parameter, and the one tolerance a report carries is the text 0.001.
- ReportText.ReportRoundTrip: serde_json's nesting limit and its refusal of numbers that overflow a double are not modelled; reports contain neither.
- Protocol reads the tolerance as a real number, so the tolerance test is exact where the source compares doubles.
- Delivery.LevelZeroProgram: the literal fallback line of each program is written as the text of its internal-failure report.
- LevelZeroProbe.RenderReport: states the text only for results whose report is valid, as every result of the probe is; for others it states the calls made.
- Channel.Descriptor.WriteAll: a schedule that never ends the write is reported as blocked, where the source would wait.
- Device calls of Level Zero and OpenVINO, sysfs probing, process spawning, deadlines and stderr are left out.
- NativePlan.ParseInputs: the JSON of a stored transaction is given as a document or as unreadable; digests of the bytes and the inventory fingerprint are not modelled.
- Inventories.ParseQuery: takes the decoded text, since output that is no UTF-8 is refused before it is split, and keeps the records as a set, since the source sorts a list without repetitions.
- Transactions.NeverLowers: RPM version comparison is a parameter; no order law is needed of it.
- ReleaseManifest::parse_json, bind_profile and the flat field validators of profiles, locks, sites and packages: independent one-branch checks.
- TarScan.Scan: the header decoder and the decompressors are a function of the 512-byte block and the stream of bytes.
- TarReader.MemberAgrees: the sparse forms that pax records declare are not followed; the reader is then lost, and the lemma says that this does not happen.
- Hardlinks.Resolve: the walk over the archive members that fills the maps is left out; its refusal of repeated names is what keeps the maps apart.
