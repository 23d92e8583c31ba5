# gitlab-ensure: a verified model of the visibility reconciler

gitlab-ensure makes sure that a known list of GitLab projects is public. It
reads the comma-separated project ids in `KNOWN_OPEN` and, for each id,
fetches the project. If the project is not public, it issues one edit to
make it public and, if the edit succeeds, sends the updated project on a
channel. `main` prints
every project that comes off the channel.

This project models the two parts of `main.go` that hold logic:

- `splitCommas`, the id-list parser (module `Strings`, `strings.dfy`). It is
  Go's `strings.ReplaceAll(s, " ", "")` followed by `strings.Split(·, ",")`.
  `DeleteAll`, `Split` and `Join` are written out with Go's semantics for a
  one-character pattern.
- `ensureProject` and the loop in `main` that drives it. Module `Reconcile`
  (`reconcile.dfy`) has them as pure functions over an abstract remote
  directory, a map from project id to record. `Step` is one unit of work.
  `Batch` is the loop over the ids, run one id after another. Module
  `Engine` (`engine.dfy`) has the same logic in imperative form. Class
  `Reconciler` holds the directory, the channel contents (`emitted`) and a
  log of the edit calls issued (`edits`). Its methods `EnsureProject`,
  `EnsureAll` and `RunKnownOpen` are proved equal to `Step`, `Batch` and
  `EnsureKnownOpen`. `ReportUpdated` returns the names of the projects on
  the channel, in order.

The remote calls become operations on the map. A fetch fails exactly when
the id is not a key. Whether an edit succeeds is up to the environment: a
flag for one step, and for a batch the set `failing` of ids whose edits the
remote refuses. `WellKeyed` says every record is filed under its own id.
That is what lets the edit, keyed by `proj.ID`, hit the record that was
fetched by `pid` (main.go:59, 66).

`ensureProject` returns `nil` or an error. The model's `Outcome` gives
three cases: `Unchanged` and `Updated` (both `nil`) and `Failed(stage)`.
The stage says which of the two calls failed. The batch is proved
order-independent: its final directory, the set of edited ids and the set
of emitted ids depend only on the set of ids.

The code and the comment above `splitCommas` disagree. The comment says it
trims whitespace. The code deletes every space character, including ones
inside an id, and keeps tabs and newlines. The model follows the code
(`SplitCommasIgnoresSpace`, `SplitCommasKeepsTab`). Empty fields are kept,
as Go's `strings.Split` keeps them.

## Model

| member | source | states |
|---|---|---|
| `Strings.DeleteAll` | main.go:78 | the result has no space left; every other character keeps its number of occurrences; the length drops by the number of spaces |
| `Strings.DeleteAllAbsent` | main.go:78 | deleting a character that does not occur changes nothing |
| `Strings.DeleteAllAppend` | main.go:78 | deletion distributes over concatenation, so it keeps the order of what remains |
| `Strings.Split` | main.go:78 | one field more than there are separators, so never empty; no field holds the separator |
| `Strings.JoinSplit` | main.go:78 | joining the fields of a split with the separator gives back the input exactly |
| `Strings.SplitJoin` | main.go:78 | a non-empty list of separator-free fields, joined and split again, comes back unchanged, empty fields included |
| `Strings.SplitCommas` | main.go:76-79 | as many ids as commas plus one; no id holds a space or a comma; the ids joined with commas are the input with all spaces deleted |
| `Strings.SplitCommasUnique` | main.go:78 | any non-empty comma-free list that joins to the space-free input is the result, so the result is fully determined |
| `Strings.SplitCommasEmpty` | main.go:78 | the empty string gives one empty id |
| `Strings.SplitCommasEmptyField` | main.go:78 | `"a,,b"` gives `["a", "", "b"]`: empty fields are kept |
| `Strings.SplitCommasIgnoresSpace` | main.go:78 | a space anywhere, also inside an id, does not change the result |
| `Strings.SplitCommasKeepsTab` | main.go:78 | a tab is not deleted: `"a\t,b"` gives `["a\t", "b"]` |
| `Reconcile.Step` | main.go:55-74 | one unit of work issues at most one edit and emits at most one project; it emits exactly when it ends `Updated`; without an edit, or on an error, the directory is unchanged and nothing is emitted. The full case analysis is `StepContract` |
| `Reconcile.StepContract` | main.go:55-74 | failed fetch: error, no edit, nothing emitted, directory unchanged. Visibility already the target: no edit, nothing emitted, nil, unchanged. Otherwise exactly one edit to the target. If it succeeds, the project has the target, exactly that project is emitted, and the result is nil. If it fails, an error and nothing emitted |
| `Reconcile.StepReconciles` | main.go:64-71 | a step leaves the directory as the reference `Reconciled` over its one id |
| `Reconcile.Batch` | main.go:39-42 | every id yields exactly one terminal outcome |
| `Reconcile.BatchDirectory` | main.go:39-41 | the final directory is the target applied to exactly the accepted divergent ids; it depends on the set of ids only |
| `Reconcile.BatchFailures` | main.go:59-62 | an id's outcome is an error exactly when its own fetch fails or its own needed edit is refused, whatever the other ids do |
| `Reconcile.BatchEdits` | main.go:64-66 | the edit calls name exactly the ids that diverge from the target, and every call sets the target |
| `Reconcile.BatchEmitted` | main.go:64-70 | the emitted ids are exactly the ids that diverged and whose edit was accepted; each is emitted as its record at the target |
| `Reconcile.BatchUpdatedAccepted` | main.go:64-71 | an outcome is `Updated` only for an id that diverged and whose edit was accepted |
| `Reconcile.QuietBatch` | main.go:59-71 | a batch in which no id's edit would be accepted leaves the directory as it was, emits nothing and has no `Updated` outcome |
| `Reconcile.BatchFirstOccurrence` | main.go:39-42 | the first unit of work for an id ends exactly as that id's step would on the starting directory: the steps before it, for other ids, leave its record alone |
| `Reconcile.SecondRunQuiet` | main.go:39-41 | run again on the resulting directory, with refused edits still refused and failed fetches still failing, the batch emits nothing, updates nothing and changes nothing |
| `Reconcile.EnsureKnownOpen` | main.go:39-41 | the batch over `splitCommas(KNOWN_OPEN)` with target public has one outcome per comma-separated field. What it edits, emits and leaves is stated by `BatchDirectory`, `BatchEdits`, `BatchEmitted` and `KnownOpenReport` |
| `Reconcile.KnownOpenReport` | main.go:37-51 | `main` has one outcome per id of `KNOWN_OPEN`, reports exactly the ids that were not public and were edited, and a second run, with the same refused edits and failed fetches still failing, reports nothing |
| `Reconcile.ThreeIds` | main.go:78 | `"1,2,3"` gives the three ids `1`, `2`, `3` |
| `Reconcile.FirstOccurrences` | main.go:39-41 | for the three distinct ids `1`, `2`, `3`, every outcome is the one its step alone would give |
| `Reconcile.ThreeProjects` | main.go:37-51 | with `1` and `3` private and `2` public, exactly `1` and `3` are reported, and the outcomes are `Updated`, `Unchanged`, `Updated` |
| `Reconcile.ThreeProjectsOneMissing` | main.go:37-62 | if `2` cannot be fetched, `2` fails while `1` and `3` still end `Updated` and are reported |
| `Engine.Reconciler.GetProject` | main.go:59 | the fetch fails exactly when the id is unknown; otherwise it returns that id's record |
| `Engine.Reconciler.EditProject` | main.go:65-66 | one call is logged; on success the record, and only it, takes the new visibility and is returned; on failure nothing changes |
| `Engine.Reconciler.EnsureProject` | main.go:55-74 | outcome, directory, channel and edit log after the call are exactly those of `Step` |
| `Engine.Reconciler.EnsureAll` | main.go:39-42 | outcomes, directory, channel and edit log after the loop are exactly those of `Batch` |
| `Engine.Reconciler.ReportUpdated` | main.go:49-51 | one name per project on the channel, in channel order |
| `Engine.Reconciler.RunKnownOpen` | main.go:37-51 | a fresh channel, then the batch over `splitCommas(KNOWN_OPEN)` with target public; the report names every emitted project |
| `Engine.RunTwice` | main.go:37-51 | the names the first run reports are exactly the names of the projects of `KNOWN_OPEN` that were not public and whose edit went through; a second run on the result, with the same refused edits and failed fetches still failing, reports nothing |

## Left out

- `init` (main.go:19-35): loading `.env`, reading `GITLAB_URL` and `GITLAB_TOKEN`, and building the client are environment and library I/O. The model starts with a directory in hand.
- `handleError` (main.go:82-85) prints and exits the process. That is I/O.
- Goroutines, the `sync.WaitGroup` and the goroutine that closes the channel (main.go:16, 40-47, 56) are run one after another in id order. The close-after-last-send ordering is not modelled.
- The sequential order hides one effect of the concurrency. Two copies of one id can both fetch before either edits, so the program can issue two edits and emit that project twice. `BatchEdits` and `BatchEmitted` state sets of ids, which hold either way. The model does not state how often an id is emitted.
- Each id in the list is its own project: the directory is keyed by the id string, and `WellKeyed` files each record under the id it was fetched by. GitLab also accepts a project's path where its numeric id is expected, so `42` and `group/proj` can name one project. Such aliases are not modelled. For a list holding two aliases of one non-public project, the model issues two edits and emits two records. The program, run in id order, makes one edit and then sees the project public. `BatchEdits`, `BatchEmitted` and `BatchDirectory` are stated for ids as distinct projects and do not carry over to aliases.
- The GitLab HTTP calls `GetProject` and `EditProject` (main.go:59, 66) are modelled as lookups in and updates of the map. A project record keeps only its id, name and visibility.
- A fetch that fails for a project that exists, because of the network or auth, is modelled as that id being absent. Within one run both lead to the same outcome and effect. A run never adds a key, so a fetch that failed in the first run fails again in the second. `SecondRunQuiet`, `KnownOpenReport` and `RunTwice` rest on this. The program would fetch, edit and report such a project in its second run once the fetch goes through.
- Edit failures are a set of ids fixed for one run. For a duplicated id, a refused first edit means its second edit is refused too. Per-call transient failures are modelled only by the single-step flag of `Step` and `EnsureProject`.
- Visibility is the enumeration `Private | Internal | Public`. Go's `VisibilityValue` is a string type, and other strings are not modelled.
- Error texts, and the fact that the `go` statement throws away the error that `ensureProject` returns (main.go:41), are left out. The error is only the `Failed` outcome tag with its stage.
- Engine.Reconciler.ReportUpdated: returns the project names rather than the formatted lines `Updated project <name>` that `fmt.Printf` prints (main.go:50). Output formatting is I/O.
