# Verified model of the file browser

A Dafny model of the stateful and algorithmic parts of the file browser, with
proofs of what they keep. `dafny verify dfyconfig.toml` checks everything. `Common.dfy` holds stock definitions.

The server is Go, the router and the upload queue are TypeScript. Code that
changes state step by step is a class or a method with loops here, proved against
a pure function of the old state; the lemmas then speak about that function over
all inputs and all runs.

| file | what it models |
|---|---|
| `Walk.dfy` | the parallel tree walk: up to `workers` goroutines as interleaved atomic steps over a task counter, a mutex, a limit and a flag, against a plain recursive traversal |
| `Tus.dfy` | resumable uploads (tus 1.0.0, sections "Core Protocol", "Creation" and "Termination"): the copy loop, the session registry, its handlers and the collector |
| `Paths.dfy`, `Routes.dfy` | the path grammars of both languages, percent-encoding (section 2.1 of RFC 3986), the route printer and parser, the mount path, the reserved names |
| `NaturalOrder.dfy` | the natural order of names and the listing comparator |
| `Marks.dfy` | private-folder marks: the governing mark, renaming by sequential UPDATEs under a primary key, deletion by LIKE |
| `Accounts.dfy` | the account and mark tables with their keys |
| `Authz.dfy` | the permission engine that caches the mark table, and the listing filter on top |
| `Privacy.dfy` | what the engine's steps open to whom, from coherent and from stale caches, over runs |
| `Moves.dfy` | Move on a finite tree, its copy-then-remove fallback, and the marks that travel with it |
| `Limiter.dfy`, `Bans.dfy`, `Guard.dfy` | the token buckets, the ban table, and the chain that orders them |
| `Exif.dfy`, `Orientation.dfy` | reading the orientation of a JPEG, and the seven pixel loops |
| `Uploads.dfy` | the browser's upload queue |

## Where a promise does not hold as stated

Each of these has a concrete input and, where one exists, the exact condition.

- The overflow flag of `copyTusBody` depends on how the body is cut into pieces if
  and only if the body is longer than what remains and more than one byte remains
  (`Tus.OverflowDependsOnPieces`); what is written never does.
- A tus session that is full cannot commit: HEAD reports offset equal to length
  and the collector removes the file. `Tus.FullExactly` says exactly when that
  state arises (declared length 0, or a body that breaks off right after its last
  needed byte); `Tus.ReceivedThenCollected` is a run.
- `DeletePrivateBelow` folds ASCII case (SQLite's LIKE), so deleting `docs` drops
  the mark on `Docs/p` (`Marks.DeleteFoldsCase`); `Marks.DeletedBelowExactly` says
  for which tables it removes just the subtree.
- `RenamePrivate` after a move fails if and only if a stale mark stands where a
  moved one is going (`Marks.RenameIsReroot`); what was moved there then falls to
  the stale mark's owner (`Moves.StaleMarkBlocks`).
- An engine whose RenamePrivate failed half-way keeps its old cache, and its caller
  only logs that (internal/api/admin.go:103-105). Until the next step that answers
  nil, moved nodes are judged by the old marks at their new paths, and a user whose
  mark governs such a path in the cache may remove somebody else's mark there
  (`Privacy.StaleExactly`, `Privacy.UnmarksAnothers`; `Privacy.StaleCacheUnmarks` is
  an input).
- SetPrivate leaves the ownership of the folder to its caller
  (internal/authz/authz.go:195-197), which asks for the scope only
  (internal/api/users.go:257-274). So a user that shares the owner's scope can mark
  a folder that is hidden from it, read it and unmark it (`Privacy.TakeOver`). A
  mark opens something to its owner exactly when the marked folder was hidden from
  it (`Privacy.TakesOverSome`).
- A viewer route with `edit: false` comes back without the flag; every other value
  round-trips (`Routes.ViewerRoundTrip`).
- Parsing a location and printing it again leads back to it unless it is a directory
  that looks like an application route once it is unescaped and normalized
  (`Routes.ParseCanonical`): /a/../view shows the directory `view`, whose URL is the
  viewer's (`Routes.ShadowedLocation`).
- A running ban can end earlier: a refused download strikes a key that was banned
  in the meantime, and its fresh 15 minutes replace the rest of a day
  (`Guard.DecoyBanShortened`). `Guard.MovesEarlierExactly` is the exact condition;
  whole requests never do it (`Guard.WholeRequestsNeverShorten`).
- A download rate below the 64 KiB floor admits no download at all
  (`Limiter.PartialAdmits`, `Guard.RefusedBelowFloor`), although the settings
  accept any rate from 1 on.
- The janitor of a limiter shows if and only if the burst exceeds the rate times
  the idle time (`Limiter.JanitorInvisible`, `Limiter.JanitorVisible`); the guard's
  own rates and bursts are on the right side.
- `validateMove` also rejects moving a node onto its own parent, because ".." has
  no separator after it (`Moves.ValidateMoveIs`).

Comments that the code does not follow; the model follows the code:

- `Walk` is said to be depth-first (internal/storage/local/local.go:288); the walk
  goes level by level.
- `NaturalCompare` is said to be case-insensitive (internal/fsutil/sort.go:7); at
  the first byte that differs in case alone the byte order decides.
- `privateToOthers` speaks of any private folder (internal/authz/authz.go:118);
  only the deepest one counts.
- `DeleteUser` is said to allow deleting the original admin when there is another
  one (internal/store/store.go:304); the code always refuses.

## Model

| member | source | states |
|---|---|---|
| Walk.WalkTerminates | internal/storage/local/local.go:440-578 | every run of interleaved worker steps is at most as long as the tree is worth, and a run that has not returned can always take a step: no deadlock, no livelock, whatever the visitor answers |
| Walk.WalkRefinesRecursion | internal/storage/local/local.go:395-578 | for every interleaving: what was visited is contained in the recursive traversal as a multiset and never exceeds the limit; with no visitor failure it is the whole traversal, or exactly min(limit, matches) of it; the answer is nil unless a visitor call gave a real error, and then one of those |
| Walk.LevelHandedOut | internal/storage/local/local.go:478-510 | each task index of a level is claimed at most once, and all are once a level ends with the flag down |
| Walk.RunInv | internal/storage/local/local.go:440-578 | the invariant behind both: what is visited plus what every control point and queue still owes is the recursive traversal, for each entry, after every step |
| Walk.UnfilteredWalk | internal/storage/local/local.go:328-393 | without term, kind and extension the filters let the whole tree through, noise directories included |
| Walk.SearchVisits | internal/storage/local/local.go:328-453 | an entry is in the traversal of a search if and only if a list of names leads to it past no directory the search leaves out, its path is the start and those names joined by slashes, and the search asks for it: by an infix of name or path given by its position, by kind and by extension |
| Walk.WholeTreeVisits | internal/storage/local/local.go:328-453 | without a search the members are exactly the entries some list of names leads to, under their joined names |
| Tus.CopyTusBody | internal/api/tus.go:395-424 | appends exactly the first min(length, remaining) body bytes at the offset for every way Read may cut the body; the reader's limit error is never returned; overflow is raised exactly when a piece straddles the limit, so only for a body that is too long with more than one byte remaining |
| Tus.OverflowDependsOnPieces | internal/api/tus.go:395-424 | for every body length and remainder, two ways to cut the body into pieces that fit the buffer disagree on the flag exactly when the length exceeds the remainder and the remainder is at least 2 |
| Tus.Registry.HandleTusCreate | internal/api/tus.go:156-232 | starts an empty file and a session, or refuses with the reply of the first failing check and changes nothing |
| Tus.Registry.HandleTusPatch | internal/api/tus.go:323-391 | is the PATCH step of the state machine: accepted exactly when media type, session, offset and room are right, with the rejecting reply otherwise; a rejected one changes no byte, and a body that breaks off before covering what was left is always reported |
| Tus.Registry.HandleTusHead | internal/api/tus.go:299-319 | answers the size of the file and the declared length, and only touches the session |
| Tus.Registry.HandleTusDelete | internal/api/tus.go:280-296 | discards the session together with its file, or nothing |
| Tus.Registry.GcOnce | internal/api/tus.go:81-92 | discards exactly the expired sessions with their files, in any iteration order |
| Tus.NextValid | internal/api/tus.go:81-391 | every step keeps: live sessions write to distinct existing files, none longer than declared |
| Tus.FileIsBodies | internal/api/tus.go:81-391 | after every run, a live session's file is the concatenation of its accepted PATCH bodies in order, cut at the declared length |
| Tus.StepSession | internal/api/tus.go:323-391 | one step seen from a surviving session: its file grows by its own clamped body and by nothing else |
| Tus.CommitsExactly | internal/api/tus.go:364-391 | an accepted PATCH ends its session exactly when its body came through and covers what was left, and then the file has the declared length |
| Tus.UploadArrives | internal/api/tus.go:323-391 | a client that was dropped and resumed any number of times, always sending its source from the current offset, ends on commit with a file equal to the source, which no later step changes or removes |
| Tus.SettledRun | internal/api/tus.go:81-391 | a file no session writes to survives every run unchanged |
| Tus.FullNeverCommits | internal/api/tus.go:358-362 | a full live session accepts nothing more and goes only by DELETE or the collector, with its file |
| Tus.FullExactly | internal/api/tus.go:323-391 | the two events, and no others, that leave a session full and alive |
| Tus.ReceivedThenCollected | internal/api/tus.go:81-92 | a run in which all bytes arrive and the collector removes the file |
| Tus.IdleExactly | internal/api/tus.go:81-102 | over event times alone: from its creation on, a session that is neither deleted nor committed is live with its file as long as no tick of the collector comes more than ttl after the last step that used it; a tick removes both exactly if it comes later than that |
| Tus.CreatedExactly | internal/api/tus.go:156-232 | a creation starts a session exactly for an accepted and unreserved path, a length from 0 to the maximum and a free place; TooLarge is the answer exactly to a longer one; the file starts empty |
| Tus.LimitSet | internal/api/tus.go:116-126 | after setMaxSize a creation is accepted up to the new size, and too large only above it |
| Tus.ChangedAtEnd | internal/api/tus.go:323-391 | the file of a live session changes only by a PATCH that names it, with the right media type, at exactly the end of an incomplete file |
| Tus.PatchRejectedFor | internal/api/tus.go:323-362 | which reply a rejected PATCH gets, in terms of media type, session, offset and length of the file |
| Tus.SizesBounded | internal/api/tus.go:116-126 | over every run the greatest maximum allowed so far bounds each session and its file |
| Tus.DeletedExactly | internal/api/tus.go:280-296 | a DELETE ends that session and file and leaves every other session its file |
| Paths.NormalizeStoragePath | frontend/src/lib/routes.ts:25-36 | the push-and-pop loop computes Normalize |
| Paths.NormalizeFixpoints | frontend/src/lib/routes.ts:25-36 | the browser's normalizer lands in normal form and fixes exactly that |
| Paths.NormalizeLaws | frontend/src/lib/routes.ts:25-36 | anywhere in a path an empty segment or "." can be dropped and a name is cancelled by a ".." behind it; ".." at the front does nothing |
| Paths.CleanIsNormalize | internal/fsutil/path.go:18-50 | whatever Clean accepts is canonical and is the path the browser computes |
| Paths.CleanFixpoints | internal/fsutil/path.go:18-50 | Clean fixes exactly the canonical paths and is idempotent |
| Paths.CleanAccepts | internal/fsutil/path.go:18-50 | what Clean accepts, for every string: not rooted, no NUL, backslash or "..", segments of at most 255 bytes, at most 4096 bytes once dots and doubled or trailing slashes are dropped |
| Paths.BelowIsExtension | internal/authz/authz.go:81-93 | the textual test root or root + "/" agrees with extension by segments |
| Paths.AncestorsChain | internal/authz/authz.go:104-116 | two paths containing a third lie on one chain |
| Routes.Utf8RoundTrip | frontend/src/lib/routes.ts:38-52 | decoding the UTF-8 octets of a character gives it back |
| Routes.ComponentRoundTrip | frontend/src/lib/routes.ts:38-52 | percent-decoding undoes percent-encoding on every string |
| Routes.FilesRoundTrip | frontend/src/lib/routes.ts:61-127 | a directory URL parses back to its directory if and only if the path is in normal form and its first segment is not reserved |
| Routes.ViewerRoundTrip | frontend/src/lib/routes.ts:61-127 | a viewer URL parses back exactly unless edit is false |
| Routes.CreateRoundTrip | frontend/src/lib/routes.ts:61-127 | creation routes parse back for both kinds, also below reserved names |
| Routes.SettingsRoundTrip | frontend/src/lib/routes.ts:61-127 | every settings tab parses back with its background directory |
| Routes.AuthRoundTrip | frontend/src/lib/routes.ts:61-127 | login and setup parse back with their background directory |
| Routes.BaseRoundTrip | frontend/src/lib/base.ts:1-28 | removing the mount path undoes adding it, for every mount path |
| Routes.RouteRoundTrip | frontend/src/lib/routes.ts:61-127 | print, mount, unmount and parse is the identity on every route the application prints |
| Routes.ParseCanonical | frontend/src/lib/routes.ts:61-127 | parsing any location gives a route whose own URL leads back to it, if and only if that is not a directory whose first segment is reserved |
| Routes.ShadowedLocation | frontend/src/lib/routes.ts:61-127 | the location /a/../view, whose directory cannot be linked to |
| Routes.PlainLocation | frontend/src/lib/routes.ts:110-115 | a location without escapes and reserved first segment is the directory its normalized segments name |
| Routes.NoRouteExactly | frontend/src/lib/routes.ts:81-117 | which locations are no route at all |
| Routes.DecodesExactly | frontend/src/lib/routes.ts:44-52 | a location names a path exactly if each segment can be unescaped and none hides a slash |
| Routes.ViewerWithoutHistory | frontend/src/lib/routes.ts:54-58 | a viewer opened at its URL goes back to the directory its path lies in |
| Routes.ParentOf | frontend/src/lib/routes.ts:54-58 | the parent of a path is the path without its last segment, "." for a single one |
| Routes.SettingsWithoutHistory | frontend/src/lib/routes.ts:100-105 | settings opened at their URL go back to the root |
| Routes.AuthWithoutHistory | frontend/src/lib/routes.ts:106-109 | login and setup opened at their URL go back to the root |
| Routes.PageUrls | frontend/src/lib/routes.ts:61-79 | the URLs of the fixed pages |
| Routes.CreateUrls | frontend/src/lib/routes.ts:69-73 | directories are created below /new/folder, files below /new/file |
| Routes.BareSettings | frontend/src/lib/routes.ts:100-105 | /settings alone is the profile page |
| Routes.KeptInUrls | frontend/src/lib/routes.ts:38-42 | the characters a URL keeps as they are, and no others |
| Routes.EscapedCapital | frontend/src/lib/routes.ts:38-42 | every other character is escaped with capital digits, "/" as %2F |
| Routes.ByteLenIs | internal/fsutil/path.go:18-50 | the length of a path is the number of its UTF-8 octets |
| Routes.MountPath | frontend/src/lib/base.ts:1-5 | a mount path is empty or starts with a slash and does not end with one, and is the configured path but for slashes at its ends |
| Routes.BaseRemoved | frontend/src/lib/base.ts:19-26 | a location has something left exactly if it lies at or below the mount path, and adding the mount path leads back |
| Routes.CreatableIsBrowsable | internal/api/reserved.go:29-40 | for every path Clean accepts, the server rejects it exactly when its URL would not lead back to it |
| NaturalOrder.NaturalCompare | internal/fsutil/sort.go:8-33 | the two-index loop is the lexicographic order on tokens: maximal digit runs by unbounded value, other bytes by lower case and then byte |
| NaturalOrder.SkipDigits | internal/fsutil/sort.go:14-21 | the inner loop stops at the end of the maximal digit run |
| NaturalOrder.DigitRunsByValue | internal/fsutil/sort.go:66-76 | comparing trimmed runs by length and bytes is comparing their numeric values, at any length |
| NaturalOrder.NaturalTotalPreorder | internal/fsutil/sort.go:8-76 | antisymmetric in sign and transitive on all byte strings |
| NaturalOrder.NaturalTie | internal/fsutil/sort.go:8-76 | answers 0 exactly for names equal up to leading zeros in digit runs |
| NaturalOrder.NothingFirst | internal/fsutil/sort.go:8-33 | the empty name sorts before every other one |
| NaturalOrder.NumbersDecide | internal/fsutil/sort.go:8-76 | of two names that start with digit runs the smaller number comes first, between equal numbers the rest decides |
| NaturalOrder.BytesDecide | internal/fsutil/sort.go:35-64 | otherwise the first bytes decide: by lower case, then by the byte, then by the rest |
| NaturalOrder.ListingStrictWeakOrder | internal/fsutil/sortfiles.go:12-42 | for every key and direction the comparator is a strict weak order with directories first |
| NaturalOrder.ListingDetermined | internal/fsutil/sortfiles.go:12-42 | two sorted arrangements of the same items tie at every position, so the listing does not depend on the algorithm |
| NaturalOrder.KeysDecide | internal/fsutil/sortfiles.go:12-42 | among entries of one kind the smaller size (the earlier time) comes first when ascending; with equal keys, and by name, the natural order decides; descending turns the answer round |
| NaturalOrder.ListingSorted | internal/fsutil/sortfiles.go:12-42 | in a sorted listing no directory comes after a file, and along the directories and along the files sizes (times, names) run in the direction asked for |
| Marks.GoverningIsDeepest | internal/authz/authz.go:104-116 | the governing mark is the unique mark containing the path that every other such mark contains |
| Marks.UpdateOne | internal/store/store.go:414-419 | one UPDATE moves one more mark, and violates the key exactly when the original table had a mark in its new place |
| Marks.RenameIsReroot | internal/store/store.go:387-421 | in any row order the UPDATEs succeed if and only if no mark is in the way, and then equal one re-rooting of the table that keeps owners and count; else some marks whose new place was free have moved and all others are untouched |
| Marks.BlockingMarkStays | internal/store/store.go:387-421 | after a failed rename the mark in the way still has its owner and governs its path |
| Marks.RenameKeepsOwners | internal/store/store.go:387-421 | for any arguments no mark gets an owner the table did not have |
| Marks.RenameBack | internal/store/store.go:387-421 | the reverse rename restores the table |
| Marks.MarksTravel | internal/authz/authz.go:104-126 | a path governed from within the moved folder keeps its governing mark and every reader's verdict at its new place |
| Marks.OthersKeepMarks | internal/authz/authz.go:104-126 | elsewhere the governing mark does not change |
| Marks.LikeIsFoldedPrefix | internal/store/store.go:425-447 | LIKE with escapeLike(p) + "/%" is the test for p + "/" as a prefix up to ASCII case, for every p |
| Marks.DeletedBelowExactly | internal/store/store.go:425-447 | the statement deletes the path and what lies below its case variants; that is the subtree exactly when no mark lies below another variant |
| Marks.DeleteFoldsCase | internal/store/store.go:425-447 | deleting "docs" drops the mark on "Docs/p" |
| Accounts.Store.CreateUser | internal/store/store.go:160-184 | is the CreateUser step: bad name or scope, taken name, or a new row with a fresh id |
| Accounts.Store.UpdateUser | internal/store/store.go:253-276 | is the UpdateUser step; demoting the last admin is refused |
| Accounts.Store.RenameUser | internal/store/store.go:281-302 | is the RenameUser step; a taken name is refused |
| Accounts.Store.SetPassword | internal/store/store.go:239-249 | changes the hash of that row only |
| Accounts.Store.DeleteUser | internal/store/store.go:307-328 | refuses originals and the last admin, else removes the row and its marks |
| Accounts.Store.CreateOriginal | internal/store/store.go:333-356 | creates the original admin or resets its hash; a non-original account named admin is a constraint error |
| Accounts.Store.CountAdmins | internal/store/store.go:230-236 | counts the admins |
| Accounts.Store.SetPrivate | internal/store/store.go:359-370 | upserts the mark of a live owner |
| Accounts.Store.UnsetPrivate | internal/store/store.go:374-383 | removes that mark only |
| Accounts.Store.RenamePrivate | internal/store/store.go:387-421 | SELECT, filter and sequential UPDATE loops are RenameRows over the rows in whatever order they came |
| Accounts.Store.DeletePrivateBelow | internal/store/store.go:425-441 | clears the table for the root, else removes the rows the statement matches |
| Accounts.RowsBelow | internal/store/store.go:396-419 | collecting the affected rows before the first UPDATE changes nothing |
| Accounts.ApplyKeepsSound | internal/store/store.go:160-441 | every operation keeps an admin, unique names, ids below the sequence, originals, retired ids, and marks in normal form with live owners |
| Accounts.RunKeepsSound | internal/store/store.go:89-441 | the same over every run |
| Accounts.DeletedNeverResolves | internal/auth/auth.go:221-259 | a session minted for a deleted account resolves after no further run |
| Accounts.UserCreated | internal/store/store.go:160-184 | the new row has the given name, hash, flag and cleaned scope under the next id; refused exactly for a bad name or scope or a taken name |
| Accounts.UserUpdated | internal/store/store.go:253-276 | flag and scope of the row change and nothing else; taking the flag from the only admin is refused |
| Accounts.UserRenamed | internal/store/store.go:281-302 | the name of the row changes and nothing else; the own name is no conflict |
| Accounts.PasswordSet | internal/store/store.go:239-249 | the hash of the row changes and nothing else |
| Accounts.UserDeleted | internal/store/store.go:307-328 | the row goes with exactly the marks it owned; originals and the only admin are refused |
| Accounts.OriginalSeeded | internal/store/store.go:333-356 | the first call makes an original admin without a scope, later ones set its hash; an account that merely has the name is not taken over |
| Authz.Engine.OwningPrivateFolder | internal/authz/authz.go:104-116 | the scan finds the governing mark in any iteration order of the map |
| Authz.Engine.CanRead | internal/authz/authz.go:131-140 | answers ReadVerdict of the cached table |
| Authz.Engine.CanWrite | internal/authz/authz.go:145-163 | answers WriteVerdict of the cached table, checks in the code's order |
| Authz.Engine.FilterPaths | internal/authz/authz.go:167-180 | the in-place compaction keeps exactly the readable paths, in order |
| Authz.ReadByMarks | internal/authz/authz.go:104-140 | in terms of the marks, for every path and reader: ErrPrivate exactly if the reader is no admin and the mark that contains the path, and that all others containing it contain, is not its own; ErrInvalid exactly for a path Clean rejects; else allowed |
| Authz.WriteByScope | internal/authz/authz.go:145-163 | who may write: an admin everywhere, a user strictly inside its scope (anywhere without one) where it may read, no guest; and which refusal the others get |
| Authz.Engine.SetPrivate | internal/authz/authz.go:198-215 | from any cache and table: is the SetMark step, which asks for the scope, sets the mark for the actor and reloads |
| Authz.Engine.UnsetPrivate | internal/authz/authz.go:219-234 | from any cache and table: is the UnsetMark step, which asks the cache for the owner, removes the mark from the table and reloads |
| Authz.Engine.RenamePrivate | internal/authz/authz.go:240-245 | from any cache and table: is the RenameMarks step for the order in which the rows came, which reloads on success only |
| Authz.Engine.DeletePrivateBelow | internal/authz/authz.go:248-253 | from any cache and table: is the DropMarks step |
| Privacy.StaleExactly | internal/authz/authz.go:198-253 | from any state a step that answers nil makes the cache the table and a failed one leaves the cache as it was; from a coherent state the two differ exactly after a rename that moved some marks and failed |
| Privacy.RunCoherent | internal/authz/authz.go:198-253 | over every run in which each rename answers nil the cache is the table, and the table stays sound |
| Privacy.UnmarksAnothers | internal/authz/authz.go:219-234 | in any state, a non-admin removes somebody else's mark exactly when it names it and the cache lets a mark of its own govern it |
| Privacy.CoherentUnmark | internal/authz/authz.go:219-234 | with a cache that holds the table only an admin or the owner of a mark removes it |
| Privacy.MarksExactly | internal/authz/authz.go:194-215 | which SetPrivate calls set a mark, in terms of path, live user, flag and scope, and that others change nothing |
| Privacy.UnmarksExactly | internal/authz/authz.go:219-234 | which UnsetPrivate calls remove a mark, which mark that is, and that others change nothing |
| Privacy.DropsExactly | internal/authz/authz.go:248-253 | what a DeletePrivateBelow leaves: nothing for the root, else the marks that are neither on the folder nor below a case variant of it |
| Privacy.StaleCacheUnmarks | internal/api/admin.go:103-105 | a failed rename after which user 1 reads what user 2 hid and removes its mark |
| Privacy.NewMarkGoverns | internal/authz/authz.go:104-116 | a new mark governs a marked path exactly if it lies between the path and its governing mark |
| Privacy.TakesOver | internal/authz/authz.go:198-215 | an actor's own mark opens a path hidden from it exactly when it lies between the path and the mark that hides it |
| Privacy.TakesOverSome | internal/authz/authz.go:194-215 | marking d opens something to the actor exactly when d itself was hidden from it |
| Privacy.TakeOver | internal/api/users.go:257-309 | every folder that CanRead refuses to a user, but that lies inside its scope, can be marked by it; CanRead then allows it, and then the user can unmark it |
| Privacy.MovedGoverns | internal/store/store.go:387-421 | at its new place a moved path is governed by the deeper of the mark that came along and the mark that stood there |
| Privacy.StepOpensExactly | internal/authz/authz.go:198-253 | a step of a user who does not own the mark that hides a path opens it to another user in three cases and no others: that user's own mark in between, a mark of that user that stood deeper at the destination of a move, a deletion of another case variant |
| Privacy.StaysHidden | internal/authz/authz.go:104-253 | through every run of steps that are none of these, a path that CanRead refuses as private is refused as private wherever it is moved, and the cache says so |
| Authz.RebuildListing | internal/api/files.go:69-96 | the in-place compaction keeps the kept items in order and recounts: directories plus files is the total |
| Authz.FilterListing | internal/api/files.go:46-65 | the actor is shown exactly the items it may read, annotated, in order; in insecure mode every item stays, annotated as for an admin |
| Authz.ShownExactly | internal/api/files.go:46-110 | a path is shown if and only if it was listed and is readable |
| Authz.AnnotatedOnly | internal/api/files.go:98-110 | what is shown of an item is the item, flagged private exactly if there is a mark on it and the reader is an admin or its owner |
| Moves.ValidateMoveIs | internal/storage/local/local.go:629-641 | the test on filepath.Rel rejects exactly the node itself, what lies below it, and its own parent |
| Moves.Storage.MkdirAll | internal/storage/local/local.go:645-683 | adds exactly the missing directories on the way, or nothing if a file is in the way |
| Moves.Storage.CopyTree | internal/storage/local/local.go:784-793 | answers ok exactly if no node at or below the source is among the faulty ones, and then adds the subtree at the destination; else it touched nothing outside the destination |
| Moves.Storage.CopyEntries | internal/storage/local/local.go:795-811 | the loop over a directory's entries copies them in any order, and stops exactly if one of them holds a faulty node |
| Moves.Storage.Move | internal/storage/local/local.go:645-683 | succeeds exactly if from is there, to is free, its way is free, neither is the root, to is not inside from, and both are on one device or no node below from is faulty; the result is the renamed tree with missing parents added, on either path; a failed one leaves the tree but for those parents; each refusal is given exactly in its case |
| Moves.CopyThenRemove | internal/storage/local/local.go:665-677 | copying and removing ends where renaming ends |
| Moves.RenamedRooted | internal/storage/local/local.go:645-683 | a move keeps the tree a tree |
| Moves.RenamedBack | internal/storage/local/local.go:645-683 | renaming back restores the tree, contents and modes included |
| Moves.DirsMade | internal/storage/local/local.go:662-664 | the way to a place is free exactly if adding the missing directories makes it a way of directories; they get mode 0755 and nothing else changes |
| Moves.MoveCarriesMarks | internal/api/admin.go:90-105 | after a move with no stale mark at or below the destination, renaming the marks succeeds in any row order, keeps their number, and every node governed from within gives every reader the same verdict at its new path |
| Moves.StaleMarkBlocks | internal/api/admin.go:90-105 | for every stale mark where a moved one is going the rename fails in any row order, and the stale mark's owner alone, besides admins, may read there |
| Limiter.Buckets.Allow | internal/guard/ratelimit.go:38-57 | is the Allow step: refill, then charge the cost or nothing |
| Limiter.Buckets.AllowPartial | internal/guard/ratelimit.go:63-82 | is the AllowPartial step: refill, then charge what is there up to the wish, above the floor |
| Limiter.Buckets.Cleanup | internal/guard/ratelimit.go:85-94 | evicts exactly the buckets idle for longer than maxIdle |
| Limiter.JanitorInvisible | internal/guard/ratelimit.go:30-94 | over every run of calls, rate changes and janitor ticks the answers and charges are those without the janitor, when bursts are at most rate times maxIdle |
| Limiter.JanitorVisible | internal/guard/ratelimit.go:85-94 | for every larger burst there is a run in which the janitor changes an answer |
| Limiter.GuardIsConfigured | internal/guard/guard.go:53-63 | the guard's rates, bursts and idle time meet that condition |
| Limiter.ChargeBound | internal/guard/ratelimit.go:38-82 | a run of calls and janitor ticks charges one key at most its tokens plus what its length refills |
| Limiter.WindowBound | internal/guard/ratelimit.go:38-82 | after any run tokens lie in [0, burst], and any window of further calls and janitor ticks at a fixed rate charges at most burst plus its refill, both kinds of call mixed |
| Limiter.WindowAtRate | internal/guard/ratelimit.go:38-82 | after any run that is burst plus rate times the length of the window |
| Limiter.PartialAdmits | internal/guard/ratelimit.go:59-82 | idling floor/rate seconds admits a payload of any size when burst reaches the floor; otherwise nothing is ever admitted |
| Limiter.CallSpends | internal/guard/ratelimit.go:38-82 | a call takes what it charges from its own bucket and from no other: its cost, or all that is wanted or there, or nothing when refused |
| Limiter.LargePayloadDrains | internal/guard/ratelimit.go:59-82 | a payload larger than what is left empties the bucket, and at that moment nothing more is admitted |
| Bans.BanTable.Banned | internal/guard/ban.go:32-45 | answers whether a ban is in force and for how long, and forgets a served one |
| Bans.BanTable.Strike | internal/guard/ban.go:49-65 | counts a strike of the row within 15 minutes; from the fifth on it bans for BanLength |
| Bans.BanTable.Sweep | internal/guard/ban.go:75-96 | evicts exactly the old strike rows and the served bans |
| Bans.CappedShift | internal/guard/ban.go:60-64 | the shift stays inside int64 and the ban lasts min(15 minutes times 2^excess, 24 hours) for every excess |
| Bans.RowBans | internal/guard/ban.go:49-65 | four strikes of a row leave all bans alone; the n-th from the fifth on bans for min(15 minutes times 2^(n-5), 24 hours) |
| Bans.RowLengthens | internal/guard/ban.go:49-65 | a later strike of the same row never ends the ban earlier |
| Bans.SweptLeaves | internal/guard/ban.go:75-96 | after a tick no strike row older than 15 minutes and no served ban is left, and every other one is untouched |
| Guard.Guard.Middleware | internal/guard/guard.go:100-138 | decoy, ban, limit, strike in this order, as one step |
| Guard.Guard.AllowDownload | internal/guard/guard.go:164-178 | charges the download bucket and strikes on refusal, as one step |
| Guard.Guard.UpdateConfig | internal/guard/guard.go:216-231 | sets the flag and both limiters' rates and bursts |
| Guard.AlikeStep | internal/guard/guard.go:100-178 | one step of the guard is matched by the guard without janitors: same reply, still alike |
| Guard.SweepsInvisible | internal/guard/guard.go:47-178 | over every run of requests, downloads, configuration changes and ticks of all three janitors, the replies and remaining ban times are those without janitors |
| Guard.MovesEarlierExactly | internal/guard/guard.go:100-178 | a step moves the end of a running ban earlier exactly when it is a refused download whose own ban is shorter than what is left |
| Guard.BanHolds | internal/guard/guard.go:100-178 | through any run without such a step the ban stays to its end at least, and keeps every request of its key out |
| Guard.WholeRequestsNeverShorten | internal/guard/guard.go:100-178 | runs in which every download belongs to the request just served contain no such step |
| Guard.BansAreServed | internal/guard/guard.go:100-178 | from a fresh guard and after any run, whole requests, configuration changes and janitors never end a ban in force earlier, and every request of its key is kept out until it ends |
| Guard.DownloadBudget | internal/guard/guard.go:47-178 | from a fresh guard and after any run, a window of requests, downloads and ticks of all janitors charges one key at most the burst plus what the window's length refills, of either budget |
| Guard.DecoyBanShortened | internal/guard/guard.go:164-178 | a run in which five requests are let through, a decoy bans their key for a day, and their five late downloads bring the ban down to 15 minutes |
| Guard.ScriptedRowBans | internal/guard/guard.go:119-135 | five scripted requests of a fresh key (60 a second) are served, the fifth bans it for 15 minutes, and the sixth is turned away with that time |
| Guard.RequestsServed | internal/guard/guard.go:125-129 | a key with a full bucket is served twice the rate at once |
| Guard.BudgetSpent | internal/guard/guard.go:125-129 | without a token a request is answered as limited and nobody is struck |
| Guard.FirstDownload | internal/guard/guard.go:164-178 | a fresh guard admits a download at once exactly if the rate reaches 64 KiB a second |
| Guard.DisabledServes | internal/guard/guard.go:100-108 | a disabled guard serves everything, and charges and bans nobody |
| Guard.RatesSet | internal/guard/guard.go:53-60 | new and configured limiters have the request rate with twice it as burst, and the download rate with once it |
| Guard.ServedAtRate | internal/guard/guard.go:47-137 | at r requests a second a key is served at most 2r + r times the seconds of any window |
| Guard.DownloadedAtRate | internal/guard/guard.go:47-178 | at d bytes a second a key is charged at most d + d times the seconds of any window |
| Guard.TicksForget | internal/guard/guard.go:61-63 | the janitors forget exactly what was idle for more than 15 minutes and the bans that are over |
| Exif.ParseExifOrientation | internal/api/thumbs.go:229-258 | ends on every byte string inside the buffer with 1 to 8: the first orientation above 1 among the marker segments |
| Exif.FindOrientationTag | internal/api/thumbs.go:295-310 | the value of the first entry tagged 0x0112, or 1 |
| Exif.SegmentsRead | internal/api/thumbs.go:229-258 | splitting into marker segments (section B.1.1.4 of ITU-T T.81) undoes writing them |
| Exif.TagRead | internal/api/thumbs.go:295-310 | among encoded directory entries the first orientation is found |
| Exif.TiffRead | internal/api/thumbs.go:268-293 | in either byte order the header leads to the first directory (section 2 of TIFF 6.0) |
| Exif.OrientationRoundTrip | internal/api/thumbs.go:229-310 | an encoded orientation 1 to 8 is read back, after any segments that do not turn the image, any gap and any other entries, in both byte orders |
| Exif.ShortestFile | internal/api/thumbs.go:229-310 | the shortest file with an orientation, octet by octet, in both byte orders |
| Orientation.FlipH | internal/api/thumbs.go:312-322 | the loop shows the horizontally flipped picture |
| Orientation.FlipV | internal/api/thumbs.go:324-334 | the loop shows the vertically flipped picture |
| Orientation.Rotate90 | internal/api/thumbs.go:336-346 | the loop shows the picture rotated by 90 degrees |
| Orientation.Rotate180 | internal/api/thumbs.go:348-358 | the loop shows the picture rotated by 180 degrees |
| Orientation.Rotate270 | internal/api/thumbs.go:360-370 | the loop shows the picture rotated by 270 degrees |
| Orientation.Transpose | internal/api/thumbs.go:372-382 | the loop shows the transposed picture |
| Orientation.Transverse | internal/api/thumbs.go:384-394 | the loop shows the transversed picture |
| Orientation.ApplyOrientation | internal/api/thumbs.go:397-416 | orientations 2 to 8 select their symmetry, others leave the picture |
| Orientation.ShownAsTagged | internal/api/thumbs.go:397-416 | for each orientation 1 to 8 and every picture, the 0th row and the 0th column of the stored image are shown on the sides that section 8 of TIFF 6.0 names, and each pixel is kept |
| Orientation.EachPixelOnce | internal/api/thumbs.go:312-394 | source and destination positions correspond one to one for all sizes, so each destination pixel is written exactly once |
| Orientation.Composition | internal/api/thumbs.go:312-394 | one transform after another is their product, on pictures of any size |
| Orientation.Group | internal/api/thumbs.go:312-394 | 90 and 270 degrees undo each other, the other six undo themselves |
| Orientation.Identities | internal/api/thumbs.go:312-394 | rotate90 is flipH after transpose, twice rotate90 is rotate180, transverse is rotate180 after transpose, rotate180 is flipV after flipH |
| Orientation.OrientationUndone | internal/api/thumbs.go:397-416 | every orientation is undone by another one |
| Orientation.Faithful | internal/api/thumbs.go:312-394 | no two of the eight agree on a picture of at least two by two different pixels |
| Uploads.Queue.DoPump | frontend/src/stores/uploads.ts:139-150 | the countdown loop starts the queued items that have fewer queued ones before them than there were free slots, and lists their ids in that order |
| Uploads.Queue.OnProgress | frontend/src/stores/uploads.ts:62-65 | sets the bytes sent of that item only |
| Uploads.Queue.OnSuccess | frontend/src/stores/uploads.ts:66-73 | marks the item done, drops its handle and pumps |
| Uploads.Queue.OnError | frontend/src/stores/uploads.ts:74-79 | marks the item failed with the text, drops its handle and pumps |
| Uploads.Queue.OnCapabilityRejected | frontend/src/stores/uploads.ts:80-94 | requeues twice, then fails, and pumps |
| Uploads.Queue.Enqueue | frontend/src/stores/uploads.ts:102-114 | appends queued items with fresh ids and pumps |
| Uploads.Queue.Remove | frontend/src/stores/uploads.ts:123-130 | removes the item, aborts its upload if there is one, and pumps |
| Uploads.Queue.Retry | frontend/src/stores/uploads.ts:116-121 | requeues the item, keeping its count of rejections, and pumps |
| Uploads.StartsHeadOfQueue | frontend/src/stores/uploads.ts:139-150 | what a pump starts is the head of the queue, in list order |
| Uploads.RunSettled | frontend/src/stores/uploads.ts:59-150 | after any events in any order: at most three active items, the handles are exactly the active ids, nothing is queued while a slot is free |
| Uploads.StartedAtMostThrice | frontend/src/stores/uploads.ts:80-121 | from one retry or the enqueueing to the next retry, an item is started at most three times, whatever events come in whatever order |
| Uploads.QueueDrains | frontend/src/stores/uploads.ts:59-150 | in a run without new work, whatever else happens in it, uploads end at most as often as the queue has starts left; while one is under way another end is possible, and when none is every item is done or has failed |
| Uploads.ThreeAtOnce | frontend/src/stores/uploads.ts:139-150 | after any events at most three uploads are under way, exactly those of the active items, and three if any item waits |
| Uploads.ItemAfter | frontend/src/stores/uploads.ts:59-121 | what progress, success, an error, a rejection and a retry make of their item, started in the same step or not; every other item keeps its fields |
| Uploads.EnqueuedLast | frontend/src/stores/uploads.ts:102-114 | new items come last, in order, with fresh ids and their sizes |
| Uploads.RemovedOnly | frontend/src/stores/uploads.ts:123-130 | the removed item and its handle are gone, the others keep their order and fields |
| Uploads.ClearedOnly | frontend/src/stores/uploads.ts:132-136 | exactly the items that are neither done nor failed stay, as they were |
| Uploads.RetriedAgain | frontend/src/stores/uploads.ts:116-121 | a failed item that is retried while fewer than three uploads run starts at once |
| Uploads.RejectedThrice | frontend/src/stores/uploads.ts:80-94 | an item that is rejected again and again is started exactly three times and then fails |

## Left out

- HTTP plumbing, status codes, headers, middleware logging, static files: thin wrappers. Replies are names.
- Walk: names of entries are proper (not empty, no slash), as a file system's are; symbolic links, errors of ReadDir and Info, context cancellation and a file as the root; `strings.ToLower`, `path.Ext` and the kind detection are arbitrary functions.
- Tus.Next: requests are atomic; concurrent requests on one session, override uploads, disk errors and permission checks inside creation (one flag) are not modelled; whether a target is a directory is an input. Session ids are taken to be fresh. `disk` holds the files by clean path only.
- Tus.CopyTusBody: readers that return neither bytes nor an error are not modelled; every other piece makes progress.
- Tus.Registry.HandleTusCreate: uploads that override an existing target, the Location header and Upload-Metadata parsing are left out.
- Routes: URLs are strings of Unicode scalar values; ill-formed UTF-16 in the browser is not modelled. The overlong and surrogate checks of the decoder are there, the platform's own decoder is modelled from section 2.1 of RFC 3986 and RFC 3629.
- NaturalOrder.ListingDetermined: the sorting algorithm itself is library code; any sorted permutation is covered.
- Moves.Storage.Move: which nodes cannot be copied is an input, the same for every attempt; timestamps, permissions of the process, and a device failing in the middle of removing the source are not modelled. Modes and contents are kept.
- Accounts: hashes are opaque strings; SQL transactions, the meta table and the migration are left out. A session is the id in a genuine token that has not expired.
- Authz: failures of the database are not modelled except constraint errors.
- Privacy.StaysHidden: steps of admins, of the owner of the hiding mark and account changes may open a path by right and are left out, and so are runs through a failed rename, which `Privacy.StaleExactly` and `Privacy.StaleCacheUnmarks` treat.
- Limiter: tokens and seconds are real numbers, not float64.
- Guard: each request reads the clock once; the client address, the decoy list, the user-agent list and proof of work are inputs or left out. Rates are not negative, as the settings demand.
- Orientation: pictures are relative to the corner of their bounds, and the conversion to RGBA is not modelled.
- Exif: decoding the image itself, cropping and scaling are library calls. Fill bytes between segments are not accepted by the reader, so the encoder writes none.
- Uploads: speeds and their samples, names, paths and the cache invalidation are left out; an upload calls back only after it was started.
- Uploads.QueueDrains: that an upload under way ends at all is up to the network.
- Login backoff, capability tokens, configuration parsing, previews, subtitles and the other user interface: independent of the above and smaller.
