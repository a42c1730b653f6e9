# Verified models of the command line's core

A Dafny project that models the parts of this repository where much depends on
getting every case right, and proves what they promise. `dafny verify
dfyconfig.toml` checks all of it.

| file | what it models |
|---|---|
| `Credentials.dfy`, `Base64.dfy` | `apps/cli/src/auth.rs`: sign-ins kept in a credential store and an index file, every access of which may fail; the token decoder |
| `Fences.dfy`, `ShellWords.dfy`, `Handoff.dfy`, `Hosts.dfy` | `apps/cli/src/claude_parity.rs`: fenced blocks, word splitting, the transcript selection, the connector decisions |
| `DeepMerge.dfy` | `patches/deepmerge-runtime/index.js`: the vendored deep merge |
| `AgentFiles.dfy`, `AgentDocuments.dfy`, `Frontmatter.dfy`, `YamlValues.dfy`, `AgentNames.dfy`, `LineEdits.dfy` | `apps/cli/src/agents.rs`: editing and reading agent files |
| `Authority.dfy` | `apps/cli/src/agents.rs` and `cli_options.rs`: what agent definitions may change of a session |
| `Background.dfy` | `apps/cli/src/background.rs`: background runs as a system of steps on one record |
| `Pricing.dfy` | `apps/cli/src/cost_ledger.rs`: prices, the ledger, budgets, credit amounts |
| `ContextLink.dfy` | `apps/cli/src/context_handoff.rs`: the hand-off link |
| `Patches.dfy` | `apps/cli/src/apply_patch.rs`: names, submodule pointers and targets of a patch |
| `Instructions.dfy` | `apps/cli/src/compaction.rs`: which instruction files a turn loads |
| `Text.dfy`, `Utf8.dfy`, `Ordering.dfy`, `Wrappers.dfy` | what several of them share |

Loops and updates of fields are methods and classes, each proved against a
function that says what it computes or what state it leaves. What the program
promises is proved of those functions, as lemmas over all inputs, all faults,
all runs or all texts. Calls into the operating system, git, the clock, the
secret redactor and the JSON reader are parameters.

## Assumptions

- Credentials: the account name, a hash, is injective in the provider's name,
  so a vault is keyed by provider. The index file is written whole or not at all.
  A store access that fails may or may not have had its effect.
- Background runs: `background.rs` takes no lock between reading, changing and
  writing a record. Reading it, looking for its process and writing it back are
  therefore separate steps, with a count of writes. The theorems named `...Exactly`
  are about all runs; the others are about orderly runs, in which every write is fresh, or show one run.
  Process identifiers are not used again.
- Prices are real numbers, and token counts have 32 bits with saturating sums.
- Host names and languages are lowered as ASCII.

## Where the code does less than it says or seems to

- `auth.rs:338` says that a failure anywhere in a save leaves the previous index
  in place rather than one that promises credentials the store does not hold.
  That is so for failures before the first deletion. After it, a provider the save
  drops can be gone while the previous index still names it:
  `FailuresAreHarmlessExactly` says exactly when, and
  `SigningOutBreaksThePromise` is such a save.
- `compaction.rs:235` speaks of stopping at the budget. The code gives up one
  folder and goes on with the next, so a smaller file further down can still be
  loaded after one was dropped: `StopsAtDropExactly` says when loading stops, and
  `LoadingGoesOn` is a machine on which it does not.
- In an agent file the editor replaces the first line of a field and the reader
  believes the last, under either spelling: `Frontmatter.ReadsBackExactly` and
  `AgentFiles.EditReadsExactly` say when a value set is the value read. An empty
  permission mode does not clear one whose line has the other spelling:
  `PlanModeIsNotCleared`. Quoted texts are escaped when written and not unescaped
  when read: `DescriptionReadsBackExactly`, `ToolsReadBackExactly`.
- Billing by request can cost more than billing the sum where cached tokens are
  counted among the input and exceed it in some requests and not in others:
  `ByRequestCostsNoMoreExactly`.
- A root with a legacy index can load what the default root saved last, unless it
  holds all it names: `LoadIsSafeExactly`, `LegacyRootSeesSharedSave`.
- Merging is not associative in general: `MergeAssociatesExactly`, `OrderOfMergingMatters`.
- In `background.rs` a write of what was read before an end, a stop or a gathering was
  recorded takes it back, and nothing else short of removal does: `EndStandsExactly`,
  `StopStandsExactly`, `DeliveredOnceExactly`. So a stop or a late gather can clear the end
  (`StaleStopLosesTheEnd`, `LateGatherLosesTheEnd`), the final save can overwrite a stop
  (`StopIsOverwritten`), and an answer can be delivered twice, by gathers that overlap
  (`TwoGathersDeliverTwice`) or that do not (`StaleStopDeliversTwice`).

## Model

| member | source | states |
|---|---|---|
| `DeepMerge.MergeForbids` | patches/deepmerge-runtime/index.js:82-142 | Whatever is merged over whatever, no forbidden key stands at any depth of the result |
| `DeepMerge.CloneIsIdentityExactly` | patches/deepmerge-runtime/index.js:32-36 | A clone has no dropped key left in it, and is the value itself exactly when the value had none |
| `DeepMerge.CleanMergeIsOverlay` | patches/deepmerge-runtime/index.js:73-121 | On clean values the merge is the plain overlay: later values win, containers of one kind merge through, arrays are joined |
| `DeepMerge.MergeAssociatesExactly` | patches/deepmerge-runtime/index.js:95-142 | Merging clean containers associates if and only if no container is interrupted by a value of another kind |
| `DeepMerge.OrderOfMergingMatters` | patches/deepmerge-runtime/index.js:95-142 | Three objects that merge differently in either order: a number between two objects under one key |
| `DeepMerge.MergeAllThrowsExactly` | patches/deepmerge-runtime/index.js:144-152 | Merging a list throws if and only if it holds a `null` that no array directly precedes |
| `DeepMerge.MergeAllConcatenates` | patches/deepmerge-runtime/index.js:144-152 | Two lists merged apart and then together give what the joined list gives, when the later list agrees with itself in kinds |
| `DeepMerge.MergeObject` | patches/deepmerge-runtime/index.js:95-121 | Filling the destination key by key, in any order of enumeration, produces the specified fields |
| `DeepMerge.RunMerge` | patches/deepmerge-runtime/index.js:123-142 | The mutual recursion terminates on every pair of values and computes the specified merge; the measure has to look at height, kind and call together |
| `DeepMerge.ArrayMerge` | patches/deepmerge-runtime/index.js:38-42 | Arrays are joined and every item cloned |
| `Base64.Base64UrlDecode` | apps/cli/src/auth.rs:1144-1191 | The accumulator loop equals cutting the digits' bit stream into bytes, or reports the first character outside the alphabet |
| `Base64.DecodedExactly` | apps/cli/src/auth.rs:1144-1191 | Digits stand for these bytes and no others: the bytes' bits are all of the digits' bits but fewer than eight; n digits give floor(6n/8) bytes |
| `Base64.DecodeInvertsEncode` | apps/cli/src/auth.rs:1144-1191 | For every byte string, either alphabet and with or without padding (sections 4 and 5 of RFC 4648), decoding the encoding gives the bytes back |
| `Base64.Shift` | apps/cli/src/auth.rs:1174-1189 | Shifting six bits in never overflows the 32-bit buffer and puts them below the pending ones |
| `Base64.ByteAbove` | apps/cli/src/auth.rs:1174-1189 | The byte taken out is below 256, so the cast loses nothing, and fewer than eight bits stay pending |
| `Credentials.SaveSecretsKeeps` | apps/cli/src/auth.rs:326-368 | Under any faults a save loses no secret but dropped ones, none at all while it is still setting, and touches no provider it neither saves nor drops |
| `Credentials.SaveSecretsFinishes` | apps/cli/src/auth.rs:326-368 | A finished save holds what was saved and nothing of what was dropped |
| `Credentials.LoadReturnsWhatWasSaved` | apps/cli/src/auth.rs:290-409 | After a successful save the next load changes nothing and returns exactly the saved map, or an error if something cannot be read |
| `Credentials.StrictLoadIsComplete` | apps/cli/src/auth.rs:263-288 | A strict load returns every provider the index names, as held, or an error: never a partial map |
| `Credentials.LenientLoadSignsOutAbsent` | apps/cli/src/auth.rs:263-288 | A lenient load signs out exactly the providers that are absent |
| `Credentials.FailureWhileSettingIsHarmless` | apps/cli/src/auth.rs:326-368 | A save that fails before its first deletion leaves the old index in place with everything it names held |
| `Credentials.FailuresAreHarmlessExactly` | apps/cli/src/auth.rs:326-368 | Every failure of a save is harmless if and only if the save drops no provider; the comment in the code promises it always |
| `Credentials.SigningOutBreaksThePromise` | apps/cli/src/auth.rs:326-368 | A save that drops the one provider there is and then cannot write the index: the old index names it and nothing is held |
| `Credentials.LoadingOnlyAdopts` | apps/cli/src/auth.rs:234-258 | Loading never changes the shared store or another root's and never overwrites what the root holds; what it adds are copies of shared secrets the index names |
| `Credentials.MigrationIsFinal` | apps/cli/src/auth.rs:290-324 | Once a legacy index has loaded, through any later run of loads and saves of any roots, it is never legacy again and the shared store makes no difference to its root |
| `Credentials.LoadingAgain` | apps/cli/src/auth.rs:291-409 | Whatever a successful load found and moved (migrated index, clear text, sign-outs), the next load returns the same map or cannot read the file or the store, and changes nothing; with the keychain the file names exactly the providers returned |
| `Credentials.LegacyLoadsExactly` | apps/cli/src/auth.rs:234-324 | When every access works a legacy index loads if and only if every provider it names has a secret that decodes, its own or else the shared one, and those are returned |
| `Credentials.ClearTextLoadsExactly` | apps/cli/src/auth.rs:371-409 | A clear-text store loads as exactly what it holds, and only if it is owner-only; with the keychain in use its entries end up held there and an index in its place |
| `Credentials.ForeignIndexNeverLoads` | apps/cli/src/auth.rs:290-303 | An index with the scope of another root never loads, and nothing changes |
| `Credentials.SuccessNeedsEveryAccess` | apps/cli/src/auth.rs:234-409 | A load that succeeds hides no fault: the file, every named secret and, for a legacy index, every adoption and the rewriting worked |
| `Credentials.LenientLoadsExactly` | apps/cli/src/auth.rs:386-396 | Without the keychain an index of the own root loads if and only if every held secret it names decodes, and what it returned is then the clear-text file |
| `Credentials.ClearTextSaveExactly` | apps/cli/src/auth.rs:422-430 | A save without the keychain leaves exactly the entries in an owner-only file, from which they load, or changes nothing |
| `Credentials.UnreadIndexDropsNothing` | apps/cli/src/auth.rs:326-336 | A save that cannot read the index before it deletes no secret |
| `Credentials.OthersNeverChangeALoad` | apps/cli/src/auth.rs:290-430 | No run of operations on other roots changes what a root loads, unless its index is still legacy and names a provider it does not hold, and one of them owns the shared service |
| `Credentials.LoadIsSafeExactly` | apps/cli/src/auth.rs:234-324 | What a root with a legacy index loads, under any faults, is the same after every run of other roots if and only if it holds every provider it names or owns the shared service itself |
| `Credentials.PlainLoadIsSafeExactly` | apps/cli/src/auth.rs:234-324 | The same if and only if for loads in which every access works, when the secrets the root holds decode: two shared saves then show two different entries |
| `Credentials.LegacyRootSeesSharedSave` | apps/cli/src/auth.rs:300-316 | A run that shows the exception is real: a legacy root loads what the default root last saved |
| `Credentials.KeychainNeverWritesClearText` | apps/cli/src/auth.rs:422-430 | With the credential store in use no run leaves clear-text credentials that were not there at the start |
| `Credentials.Machine.SaveKeyringAuth` | apps/cli/src/auth.rs:326-368 | Entry by entry, with a fault possible at each access, the save leaves the specified store and file and reports the specified failure |
| `Credentials.Machine.AdoptUnscopedCredentials` | apps/cli/src/auth.rs:234-258 | The loop leaves the specified vault and no other vault or file changed |
| `Credentials.Machine.LoadKeyringAuth` | apps/cli/src/auth.rs:263-288 | The loop returns the specified map or error and changes nothing |
| `Credentials.Machine.LoadKeyringAuthForRoot` | apps/cli/src/auth.rs:290-324 | Checks the scope, adopts, loads and migrates as specified |
| `Credentials.Machine.LoadAuth` | apps/cli/src/auth.rs:371-409 | The choice between index and clear-text store, permissions and move into the credential store, as specified |
| `Credentials.Machine.SaveAuth` | apps/cli/src/auth.rs:422-430 | Saves to the credential store or to the owner-only file |
| `Fences.FencedBlocks` | apps/cli/src/claude_parity.rs:1169-1217 | The line loop with its open fence yields the specified blocks |
| `Fences.ParseCoversEveryLine` | apps/cli/src/claude_parity.rs:1169-1217 | Every line is exactly one of outside, fence and body, in order |
| `Fences.ScanFindsBlocks` | apps/cli/src/claude_parity.rs:1169-1217 | The scanner finds exactly the blocks a document is put together from, shorter and other fences inside them included |
| `Fences.PiecesAreUnique` | apps/cli/src/claude_parity.rs:1169-1217 | A document has one reading only |
| `Fences.BlocksOfRendered` | apps/cli/src/claude_parity.rs:1169-1217 | Rendered with fences longer than any run in a body (section 4.5 of CommonMark), any list of languages and bodies is read back from the text |
| `Fences.IndentMakesNoDifference` | apps/cli/src/claude_parity.rs:1169-1190 | However far a line is indented, it opens and closes fences as at the margin |
| `ShellWords.SplitShellWords` | apps/cli/src/claude_parity.rs:2040-2075 | The quote and escape loop computes the specified words |
| `ShellWords.SplitInvertsWriting` | apps/cli/src/claude_parity.rs:2040-2075 | However words are mixed from bare, escaped, single- and double-quoted parts and spaced, splitting gives them back |
| `ShellWords.SplitInvertsEscaping` | apps/cli/src/claude_parity.rs:2040-2075 | Escaping every character of non-empty words and joining by spaces is undone |
| `ShellWords.NoEmptyWord` | apps/cli/src/claude_parity.rs:2040-2075 | No word is empty, on any input and platform |
| `ShellWords.PlainSplitsAtSpaces` | apps/cli/src/claude_parity.rs:2040-2075 | Without quotes and escapes it is splitting at white space |
| `ShellWords.QuotedIsOneWord` | apps/cli/src/claude_parity.rs:2040-2075 | A text in double or single quotes is one word, also when the closing quote is missing |
| `ShellWords.LastBackslashStays` | apps/cli/src/claude_parity.rs:2040-2075 | A backslash at the end, where it escapes, stands for itself |
| `Handoff.SelectHandoffTranscript` | apps/cli/src/claude_parity.rs:589-659 | The transcript is the kept candidates in order, at most 256 KiB and 64 messages, each candidate kept exactly when it fits on top of the newer kept ones, and the four counts account for every message |
| `Handoff.CandidatesAreNewest` | apps/cli/src/claude_parity.rs:589-611 | The candidates are the messages at the last positions, as many as the limit allows, of those said by user, assistant or tool in whatever case, in their order |
| `Handoff.LimitExactly` | apps/cli/src/claude_parity.rs:607-680 | The limit is 64 for the word full, otherwise the number behind the first last that has one, otherwise the first number, held between 1 and 64, otherwise 8 |
| `Handoff.FiguresRead` | apps/cli/src/claude_parity.rs:661-680 | Figures that fit a machine word read as their numbers, with a plus sign or without; nothing else reads as a number |
| `Handoff.FitsExactly` | apps/cli/src/claude_parity.rs:618-646 | A message fits when its role, two characters, its text, as it is and redacted, and separators of seven stay within 262,144 bytes |
| `Handoff.FragmentReads` | apps/cli/src/claude_parity.rs:632-640 | A fragment gives back the role before its first colon and of the text only what redaction left |
| `Handoff.GreedyIsUnique` | apps/cli/src/claude_parity.rs:604-646 | There is one greedy selection, so the clause above fixes the result |
| `Handoff.GreedyFavoursNewest` | apps/cli/src/claude_parity.rs:604-646 | Of all selections that fit, none keeps a newer message where this one first differs, newest first |
| `Handoff.KeptInOrder` | apps/cli/src/claude_parity.rs:640-650 | The fragments are those of a chronological subsequence |
| `Hosts.HostnameOfAddress` | apps/cli/src/claude_parity.rs:2233-2248 | For every scheme, userinfo, port, path, query and fragment around a host (section 3.2 of RFC 3986), bracketed or not, the host found is that host in lower case |
| `Hosts.DecisionDependsOnHost` | apps/cli/src/claude_parity.rs:2250-2282 | Two addresses of one host get the same decision |
| `Hosts.FinalDotMakesNoDifference` | apps/cli/src/claude_parity.rs:2219-2282 | A dot behind the host of an address makes no difference to the decision |
| `Hosts.HostAllowedExactly` | apps/cli/src/claude_parity.rs:2219-2282 | A governed address is let through if and only if the list is empty or some pattern is the host or a wildcard of a parent domain of it |
| `Hosts.ConnectorAllowedExactly` | apps/cli/src/claude_parity.rs:2284-2340 | A connector is let through if and only if its name, in whatever case, is on no list of blocked ones and on any list of allowed ones and, if it is custom, custom ones are and so is the host of its address |
| `Hosts.HostMatchesExactly` | apps/cli/src/claude_parity.rs:2219-2231 | A pattern matches if and only if it is the host or a wildcard whose domain the host lies strictly below |
| `Background.RunSettles` | apps/cli/src/background.rs:136-151 | In every orderly run: a run that left Running never comes back, and its end, stop and gathering stay recorded until it is removed |
| `Background.StopDecidesTheEnd` | apps/cli/src/background.rs:383-434 | In every orderly run, a stop recorded while the supervisor survives ends as Stopped whatever the exit code |
| `Background.StopStandsExactly` | apps/cli/src/background.rs:383-434 | In every possible run, with writes however stale, the first stop recorded stands for good if and only if nobody writes afterwards, but to stop it too, what they had read before; the run then ends as Stopped |
| `Background.StopIsOverwritten` | apps/cli/src/background.rs:407-434 | A run in which a stop is saved between the last reading and the final save of the supervisor, and the run ends as finished |
| `Background.DeliveredOnce` | apps/cli/src/background.rs:318-381 | In every orderly run an answer is delivered at most once, not counting gathers whose mark could not be saved, and the record says whether it was |
| `Background.DeliveredOnceExactly` | apps/cli/src/background.rs:318-381 | In every possible run, from the first gather whose mark is saved, the record shows as gathered and the answer is never delivered again if and only if nobody writes or delivers afterwards what they had read before that save |
| `Background.TwoGathersDeliverTwice` | apps/cli/src/background.rs:318-381 | A run in which two gathers read before either saves: both deliver the answer and both marks are saved |
| `Background.StaleStopDeliversTwice` | apps/cli/src/background.rs:318-434 | A run in which one gather follows another and a stop that read before the end writes the record back between them: both deliver the answer and both marks are saved |
| `Background.EndStandsExactly` | apps/cli/src/background.rs:383-434 | In every possible run, with writes however stale, the end the supervisor records stands for good if and only if nobody writes afterwards what they had read before it was recorded |
| `Background.EndDecidesState` | apps/cli/src/background.rs:136-151 | In every possible run a record with an end shows as stopped if it was, otherwise as finished or failed by the exit code the supervisor recorded |
| `Background.SupervisedRecordStands` | apps/cli/src/background.rs:436-448 | No record is removed under a supervisor still at work |
| `Background.NothingAfterRemoval` | apps/cli/src/background.rs:436-448 | After removal no step of anybody brings the record back |
| `Background.EndsWithStopPending` | apps/cli/src/background.rs:417-434 | A run of the system in which the end is recorded while a stop that read it is pending |
| `Background.StaleStopLosesTheEnd` | apps/cli/src/background.rs:417-434 | Such a write, by a stop: the run that had finished shows as lost |
| `Background.LateGatherLosesTheEnd` | apps/cli/src/background.rs:318-381 | Such a write, by a gather that loads a running record, looks for the process after the end and delivers the run as lost |
| `Background.Runs.Stop` | apps/cli/src/background.rs:417-434 | Refuses what is not running; otherwise marks the record and names the process to end, child first |
| `Background.Runs.Remove` | apps/cli/src/background.rs:436-448 | Removes exactly a run that is not running |
| `Background.Runs.Gather` | apps/cli/src/background.rs:318-381 | Delivers every ready answer once, in order, and marks those whose record could be saved, or says how many still run |
| `Background.ReadyAt` | apps/cli/src/background.rs:327-362 | The ready answers stand at ascending positions of the list: exactly the runs that were not gathered and have left Running |
| `Background.RunningIsCounted` | apps/cli/src/background.rs:322-326 | The count is the number of runs that are running |
| `AgentFiles.EditThenParse` | apps/cli/src/agents.rs:1094-1179 | Setting a field to a one-line value and reading the file: the body and every other field are as before, and a field at most once in the file, under either spelling, reads as the value if and only if the value says something or no line in the other spelling does |
| `AgentFiles.EditReadsExactly` | apps/cli/src/agents.rs:1094-1179 | With any number of lines of the field: it reads as the value if and only if no later line says anything else and, for a value that says nothing, no other line says anything |
| `AgentFiles.EmptyModeDoesNotClear` | apps/cli/src/agents.rs:1396-1409 | In a file with only a permission mode in the other spelling, setting an empty one leaves it |
| `AgentFiles.PlanModeIsNotCleared` | apps/cli/src/agents.rs:1396-1409 | A file with `permission_mode: plan` that reads as plan after the mode was set to nothing |
| `AgentFiles.EditTwice` | apps/cli/src/agents.rs:1159-1179 | A second edit of a field leaves the text it alone would have left |
| `AgentFiles.EditsCommute` | apps/cli/src/agents.rs:1159-1179 | Edits of two fields read alike in either order |
| `AgentFiles.EditOfRendered` | apps/cli/src/agents.rs:1148-1179 | On a file with a proper frontmatter the editor changes one line and leaves all other text |
| `AgentFiles.ParseOfRendered` | apps/cli/src/agents.rs:1335-1468 | Reading such a file gives the last word of its lines on every field, and its body |
| `AgentFiles.ReplaceFrontmatterField` | apps/cli/src/agents.rs:1159-1179 | The line loop replaces the first fitting line, or puts a new one before the closing dashes |
| `AgentFiles.ParseAgentFrontmatter` | apps/cli/src/agents.rs:1335-1468 | The reader's loop computes the specified fields, and the fallbacks for missing and unclosed frontmatter |
| `AgentDocuments.DocumentReads` | apps/cli/src/agents.rs:1335-1489 | A file with any of the eleven fields in any order, in either spelling, with lists in brackets or bare, reads as exactly what was written, the other fields as unknown and the text below as the prompt |
| `AgentDocuments.OtherTextIsPrompt` | apps/cli/src/agents.rs:1335-1468 | A text without dashes at its start is all prompt to the reader and refused by the editor |
| `AgentDocuments.UnclosedIsRefused` | apps/cli/src/agents.rs:1148-1157 | The editor refuses a text whose dashes are never closed |
| `AgentFiles.FilledSays` | apps/cli/src/agents.rs:1361-1450 | The loop over the lines ends with the last word on each field |
| `AgentFiles.DescriptionReadsBackExactly` | apps/cli/src/agents.rs:1141-1141 | A description reads back if and only if nothing in it is escaped when quoted and it has no single quote at either end |
| `AgentFiles.ToolsReadBackExactly` | apps/cli/src/agents.rs:1132-1140 | A tool list reads back if and only if each of its items does |
| `AgentFiles.PromptReadsBack` | apps/cli/src/agents.rs:1107-1110 | A new prompt reads back trimmed, a blank one as nothing, with every field as it was |
| `Frontmatter.ReadsBackExactly` | apps/cli/src/agents.rs:1159-1179 | For any lines and any value: what is set is what is read if and only if no other line of the field stands against it; the editor takes the first line, the reader the last |
| `Frontmatter.SetThenRead` | apps/cli/src/agents.rs:1159-1179 | For a field at most once under either spelling: what is set is what is read if and only if the value says something or no line in the other spelling does |
| `Frontmatter.OthersUnchanged` | apps/cli/src/agents.rs:1159-1179 | For any lines: setting a field leaves what is read of every other field |
| `Frontmatter.SettingsCommuteExactly` | apps/cli/src/agents.rs:1159-1179 | Two settings give the same lines in either order if and only if one of the fields has a line already |
| `Frontmatter.ReadsByPrefix` | apps/cli/src/agents.rs:1375-1444 | A line is about a field if and only if it starts with one of the field's spellings and a colon |
| `YamlValues.DebugReadsBackExactly` | apps/cli/src/agents.rs:1471-1473 | A quoted text is unquoted to itself if and only if nothing in it was escaped and no single quote is at either end |
| `YamlValues.ListReadsBackExactly` | apps/cli/src/agents.rs:1476-1489 | A written list is parsed to itself if and only if each of its items reads back |
| `YamlValues.BareListReads` | apps/cli/src/agents.rs:1475-1489 | Items that need no quotes read back from a list in brackets, and from a bare one unless its own ends are brackets |
| `AgentNames.SlugifyAgentName` | apps/cli/src/agents.rs:998-1014 | The two loops compute the specified slug |
| `AgentNames.SlugIsSlug` | apps/cli/src/agents.rs:998-1014 | A slug is groups of lower-case letters and digits with single dashes between, keeps the letters and digits of the name in order, and slugs stay as they are |
| `AgentNames.SlugOfWords` | apps/cli/src/agents.rs:998-1014 | Words with anything between become the words in lower case, with one dash where a hyphen, underscore, space, slash or colon stands between two and nothing otherwise |
| `AgentNames.NameReadsBack` | apps/cli/src/agents.rs:1071-1092 | A renamed file reads back under the slug |
| `Authority.NarrowingIsTheStrictest` | apps/cli/src/agents.rs:146-183 | Any sequence of definitions ends in the strictest mode among the session's own and those asked for, and never above the managed pin |
| `Authority.NarrowingNeverWidens` | apps/cli/src/agents.rs:143-183 | No definitions in any order let a session change files unasked that did not, take it out of planning or bring it to bypass |
| `Authority.NarrowsExactly` | apps/cli/src/agents.rs:146-183 | One definition changes a session exactly for the listed pairs of present and asked mode, and then to that mode with the settings that belong to it |
| `Authority.RunsInExactly` | apps/cli/src/cli_options.rs:95-100 | A session runs without approvals or in its own mode, unless a pin that lowers it is set |
| `Authority.ModeReadsExactly` | apps/cli/src/cli_options.rs:33-46 | A text names a mode if and only if it is one of its words but for case, hyphens, underscores and outer white space; no word names bypass |
| `Authority.StrictestIsUnique` | apps/cli/src/cli_options.rs:81-100 | The strictest mode is one mode, so the clause above fixes the result |
| `Authority.BypassStaysGone` | apps/cli/src/agents.rs:146-183 | Once a definition has lowered a session, approvals are never skipped again by any later sequence |
| `Authority.OrderMakesNoDifference` | apps/cli/src/agents.rs:146-183 | Neither the order of the definitions nor repeating them makes a difference to the mode |
| `Authority.HoldingChangesNoMode` | apps/cli/src/cli_options.rs:126-137 | Permissions held to the pin beforehand never skip approvals or exceed it, and through any definitions lead to the mode they would have led to anyway |
| `Authority.FileNeverHoldsBypass` | apps/cli/src/cli_options.rs:116-123 | However often a session is saved, its file holds the last mode that was not bypass, and bypass never |
| `Authority.RestrictingIsTheMeet` | apps/cli/src/agents.rs:192-225 | A chain of definitions lets through exactly the tools and servers the parent and every one of them lets through, whatever order and repetition; denials add up |
| `Authority.RestrictingTakesTheLeast` | apps/cli/src/agents.rs:192-225 | Turns and spending are capped exactly by all caps together |
| `Authority.Session.NarrowTo` | apps/cli/src/agents.rs:154-183 | The assignments to the session leave the specified grants |
| `Authority.Session.NarrowPermissionMode` | apps/cli/src/agents.rs:146-183 | So they do for the mode an agent file names, and an unknown one changes nothing |
| `Authority.Session.ApplyToSubagent` | apps/cli/src/agents.rs:192-225 | The assignments to the session leave the specified limits |
| `Authority.Session.CapSpend` | apps/cli/src/agents.rs:57-65 | The spending cap becomes the smaller one |
| `Pricing.ByRequestCostsNoMore` | apps/cli/src/cost_ledger.rs:118-182 | Billing per request never costs more than billing the sum, when rates do not fall with size and each total fits its width, with cached tokens reported apart, or among the input and all requests of one kind |
| `Pricing.ByRequestCostsNoMoreExactly` | apps/cli/src/cost_ledger.rs:118-182 | Where cached tokens are reported among the input, that holds at all such rates if and only if every request has its cached tokens within the input or every request has at least as many cached as input tokens |
| `Pricing.CacheBeyondInputCostsMore` | apps/cli/src/cost_ledger.rs:118-148 | The smallest mixed case: two requests that cost more than their sum |
| `Pricing.PriceByKind` | apps/cli/src/cost_ledger.rs:118-141 | A million tokens of one kind cost the rate of that kind, and bills add up |
| `Pricing.EitherReportCostsTheSame` | apps/cli/src/cost_ledger.rs:118-148 | The same request costs the same whether its cached tokens are reported among the input or apart from it |
| `Pricing.LedgerConserves` | apps/cli/src/cost_ledger.rs:166-301 | Over any interleaving of turns and subagent runs, whatever tokens the requests used and whichever a plan includes, the total is the sum of its per-model entries and the subagents' share never exceeds it |
| `Pricing.LedgerTotals` | apps/cli/src/cost_ledger.rs:158-245 | A session costs what its metered requests cost, those a plan includes not counting, and what its subagents reported, reports below zero counting as nothing; every event is one turn or one run |
| `Pricing.LedgerAttributes` | apps/cli/src/cost_ledger.rs:258-301 | Every request is charged to its own model and to no other |
| `Pricing.CostLedger.RecordCompletions` | apps/cli/src/cost_ledger.rs:261-271 | The loop adds each request to its model and to the total |
| `Pricing.CostLedger.RecordSubagentRun` | apps/cli/src/cost_ledger.rs:290-301 | A run is added to its model, the total and the share; a negative cost counts as nothing |
| `Pricing.TreeStaysWithinCap` | apps/cli/src/cost_ledger.rs:192-224 | However deep children spawn children within their caps, the whole tree stays within the first budget |
| `Pricing.CreditAmount` | apps/cli/src/cost_ledger.rs:18-39 | The digit loop writes the specified figure |
| `Pricing.AmountReadsBack` | apps/cli/src/cost_ledger.rs:18-39 | The figure, without its commas, reads back as the amount |
| `Pricing.PushedIsGrouped` | apps/cli/src/cost_ledger.rs:24-32 | A comma before each digit with a multiple of three digits left is grouping by threes from the right |
| `ContextLink.ParseContextHandoffUrl` | apps/cli/src/context_handoff.rs:62-110 | The loop over the pairs computes the specified result or refusal |
| `ContextLink.LinkRoundTrip` | apps/cli/src/context_handoff.rs:30-110 | What is percent-encoded (section 2.1 of RFC 3986, with `+` for a space, any choice of bytes left bare and either case of digits) into a version 1 link comes out of it |
| `ContextLink.LinkReadsParams` | apps/cli/src/context_handoff.rs:76-97 | A link is read as the last value of each key, in any order and with unknown keys between |
| `ContextLink.AcceptedIsWithinLimits` | apps/cli/src/context_handoff.rs:38-110 | Every accepted link carries fields within the limits |
| `ContextLink.UrlExactly` | apps/cli/src/context_handoff.rs:48-60 | A source is accepted if and only if it is a page over http or https of at most 2,048 bytes with a host and no user, query, fragment or space |
| `ContextLink.IdExactly` | apps/cli/src/context_handoff.rs:38-46 | An identifier is accepted if and only if it is ctx_ and 8 to 80 letters, digits, underscores or hyphens |
| `ContextLink.LinkTextIs` | apps/cli/src/context_handoff.rs:62-76 | The text of the links that read back |
| `Patches.RefuseEscapingName` | apps/cli/src/apply_patch.rs:151-177 | Lets a name through if and only if it does not start at the root and following the pieces of its text, empty and dot staying, double dot climbing, never leaves the project |
| `Patches.ComponentsFollowPieces` | apps/cli/src/apply_patch.rs:158-176 | The components lead where the pieces of the text do and leave the project when they do |
| `Patches.InsideExactly` | apps/cli/src/apply_patch.rs:151-177 | Walking a folder stack, the path stays inside the project at every prefix if and only if the depth never falls below zero |
| `Patches.GitlinkIn` | apps/cli/src/apply_patch.rs:200-220 | Answers with the header of the first line that gives a file header the submodule mode, or with none when there is no such line |
| `Patches.FirstGitlinkIsUnique` | apps/cli/src/apply_patch.rs:200-220 | There is one such answer, so the clause above fixes the result |
| `Patches.GitlinkOfPatch` | apps/cli/src/apply_patch.rs:200-220 | On classified lines: in a well-formed patch the answer is the first file whose header says so, whatever the bodies of its hunks hold |
| `Patches.GitlinkOfText` | apps/cli/src/apply_patch.rs:200-220 | The same on the text of a patch of file headers, hunk lines and content lines |
| `Patches.ModeIsRead` | apps/cli/src/apply_patch.rs:180-222 | A line that gives a mode, on its own or behind the hashes, counts as a submodule pointer if and only if the mode is 160000 |
| `Patches.ContentLineIsQuiet` | apps/cli/src/apply_patch.rs:200-220 | No content line of a hunk is taken for the start of a file or a hunk |
| `Patches.ListingReads` | apps/cli/src/apply_patch.rs:76-88 | A listing of changes is read back name by name, tabs in names included |
| `Patches.CheckedTargets` | apps/cli/src/apply_patch.rs:265-300 | Succeeds if and only if every changed and source name is admitted, with each name once in order of appearance; otherwise names the first refused |
| `Patches.AppliedStaysInside` | apps/cli/src/apply_patch.rs:325-364 | When what git reports is, in some order, what was listed, every file it changed was admitted and stays inside the project on every step of its path |
| `Instructions.InstructionSources` | apps/cli/src/compaction.rs:147-191 | The loops over folders and names compute the specified sources and flag |
| `Instructions.GlobalIsFirstWithInk` | apps/cli/src/compaction.rs:215-226 | The file for all projects is the first of instructions.md and INSTRUCTIONS.md in the configuration folder that is not blank |
| `Instructions.NamesTried` | apps/cli/src/compaction.rs:167-173 | In every folder AGENTS.md, CLAUDE.md and .agiworkforce/instructions.md are tried in this order |
| `Instructions.SameFileExactly` | apps/cli/src/compaction.rs:228-233 | Two paths are one file if and only if they are spelled alike or both lead to the same place |
| `Instructions.WalkToRoot` | apps/cli/src/compaction.rs:253-264 | Lists every ancestor, from the working folder up to the root |
| `Instructions.WithinBudget` | apps/cli/src/compaction.rs:147-191 | Whatever the files, the loaded sources total at most 10,000 tokens, and the running total is their total |
| `Instructions.NoFileTwice` | apps/cli/src/compaction.rs:228-233 | No physical file is loaded twice, by whatever paths |
| `Instructions.RootFirst` | apps/cli/src/compaction.rs:167-188 | After the global file the sources come root first, and in the order of names within a folder |
| `Instructions.TruncatedExactly` | apps/cli/src/compaction.rs:147-191 | The flag is up if and only if some file was dropped for the budget |
| `Instructions.LoadsNoMoreExactly` | apps/cli/src/compaction.rs:167-188 | From any point on nothing more is loaded if and only if every later candidate is unreadable, held already, too large for what is left, or in a folder given up |
| `Instructions.StopsAtDropExactly` | apps/cli/src/compaction.rs:175-188 | Loading stops where a file was dropped for the budget if and only if every later candidate of the folders down to the working one is so shut |
| `Instructions.StopsAtGlobalExactly` | apps/cli/src/compaction.rs:153-165 | The same where the global file is the one dropped |
| `Instructions.LoadingGoesOn` | apps/cli/src/compaction.rs:175-188 | Two folders in which the file of the root is dropped and that of the folder below is loaded |
| `Instructions.NothingLostQuietly` | apps/cli/src/compaction.rs:167-188 | A readable file is loaded, by this path or another, or it or one before it in its folder did not fit |
| `Instructions.CompleteUnlessTruncated` | apps/cli/src/compaction.rs:147-191 | With the flag down every readable instruction file on the way is loaded |

## Left out

- Network and process work of the command line (device login, browser bridge,
  heartbeats, tool serving) and all rendering and prompt text.
- `record_credential_use`, `compare_cells`, `last_code_block`, `compact_after`,
  `context_usage`, `evaluate_plugin_access`: short members that would only add easy claims.
- The depth of `AgentDefinition::apply_to_session` beyond the permission mode: the
  model, tools and skills it also sets are plain assignments.
- AgentFiles.EditThenParse: does not model carriage returns before line feeds, which
  the editor drops, nor a frontmatter whose lines are all empty, which the reader takes for none.
- AgentFiles.ParseAgentFrontmatter: the parsing of a number of turns and of an amount is a
  parameter; amounts are real numbers.
- AgentFiles.DescriptionReadsBackExactly: which characters are printable is a parameter.
- Background.RunSettles: does not hold for runs with stale writes, see `EndStandsExactly`,
  `StopStandsExactly` and `DeliveredOnceExactly`;
  which process dies when is left open, and killing a process is one way for it to die.
- Background.Runs.Gather: the text of an answer is not modelled, only whose it is.
- ContextLink.ParseContextHandoffUrl: the percent-decoding crate is modelled by its documented
  behaviour: malformed escapes stay as they are, and text that is not UTF-8 is refused.
- Credentials.Machine.LoadAuth: serialization and file permissions are values in the
  model; the decoding of a secret either gives an entry or fails.
- DeepMerge.RunMerge: only JSON-like values; no dates, functions, symbols, custom merge options
  or array items that are holes, and no order of keys.
- Handoff.SelectHandoffTranscript: redaction is any function on texts, and texts are
  sequences of UTF-8 code units.
- Hosts.HostAllowedExactly: lower-casing covers ASCII letters only.
- Instructions.InstructionSources: reading within a folder, links and the token estimate are
  parameters; paths are absolute.
- Patches.RefuseEscapingName: paths as on Unix, without drive letters.
- Patches.CheckedTargets: git itself and the checks of the file system are a parameter.
- Patches.AppliedStaysInside: says nothing of symbolic links beyond that parameter.
- Pricing.ByRequestCostsNoMore: rounding of floating point is not modelled, and totals that
  saturate at 32 bits are not compared.
- Pricing.CreditAmount: starts from an amount already rounded to hundredths.
- Pricing.LedgerConserves: rates of the catalog are taken to be never negative.
- Pricing.CostLedger.RecordCompletions: the count of turns, which wraps at 32 bits, is not modelled.
