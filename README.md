# Clipboard bridge — a verified Dafny model

The clipboard bridge is a web app that keeps a per-user clipboard in a
cloud document store. A signed-in browser tab submits text and sees the
latest clip and a history window. It can delete one clip or clear them all,
and it shows how many devices are present. This project models the core of
that app and proves properties about it:

- `jsstring.dfy` — JavaScript text as UTF-16 code units, `trim` with the
  ECMAScript whitespace set, `toLowerCase` and `includes`.
- `clipboard.dfy` — normalisation of submitted content (trim, 20 000-unit
  cap), the 32-bit FNV-1a fingerprint exactly as `hashContent` computes it on
  JavaScript numbers, and the dedup-window policy.
- `seqs.dfy` — order-preserving sublists, shared by the list derivations.
- `env.dfy` — validation of the four required configuration keys.
- `device.dfy` — the per-browser device id kept in local storage.
- `types.dfy` — the clip record, and JavaScript truthiness of a user id.
- `clips.dfy` — the clips collection store, and the `useClips` hook as a
  class: live subscriptions, submit, delete-one and the paged clear-all.
- `presence.dfy` — the device-presence store, and the `useDevicePresence`
  hook as a class: the heartbeat, visibility and snapshot handlers, and
  teardown.
- `dashboard.dfy` — the dashboard's list derivations, pinned-first
  ordering, relative-time buckets and visible-row budget. It also models the
  optimistic hide with rollback around delete and clear-all.

Remote stores are classes with a fault oracle `fault: nat -> bool`. Every
remote call takes the next slot of the oracle and fails when that slot says
so. Live queries are numbered handles. A snapshot or event that carries a
handle other than the live one belongs to a detached listener and changes
nothing. Clocks (`Date.now()`) and snapshot contents are parameters of the
event methods.

Some behaviour differs from what a reader might expect, and the model
follows the code:

- Normalising twice equals normalising once only when the trimmed input
  fits in 20 000 units. Cutting a longer input can leave trailing
  whitespace that a second pass strips. `Clipboard.NormalizeNotIdempotent`
  exhibits such an input.
- Signing out does not reset the dedup pair (`lastHash`, `lastAt`).
  `Clips.ClipSync.ChangeUser` keeps it.
- A failed delete un-hides the row even when it was already hidden before
  the delete began.

## Model

| member | source | states |
|---|---|---|
| JsString.TrimStart | src/lib/clipboard.ts:4 | the result is a suffix of the input that begins with a non-whitespace unit, and everything removed is whitespace |
| JsString.TrimEnd | src/lib/clipboard.ts:4 | the result is a prefix of the input that ends with a non-whitespace unit, and everything removed is whitespace |
| JsString.Trim | src/lib/clipboard.ts:4 | `trim()` never lengthens the text, and a non-empty result neither starts nor ends with whitespace |
| JsString.TrimIsInnerSlice | src/lib/clipboard.ts:4 | `trim()` yields one contiguous slice of the input whose first and last units are not whitespace |
| JsString.TrimEmptyIff | src/lib/clipboard.ts:4-5 | the trimmed text is empty exactly when every unit of the input is whitespace |
| JsString.TrimOfTrimmed | src/lib/clipboard.ts:4 | text that neither starts nor ends with whitespace is left unchanged by `trim()` |
| JsString.LowerUnit | src/components/DashboardPage.tsx:111-113 | A-Z map to a-z and every other code unit is kept |
| JsString.ToLower | src/components/DashboardPage.tsx:111-113 | the result has the same length and lower-cases each unit in place |
| JsString.IncludesFrom | src/components/DashboardPage.tsx:113 | true exactly when the needle occurs in the haystack at some index at or after `from` |
| JsString.Includes | src/components/DashboardPage.tsx:113 | `includes` is true exactly when the needle occurs at some index |
| Clipboard.NormalizeContent | src/lib/clipboard.ts:1-7 | normalised content has exactly min(length of the trimmed input, MAX_LEN) code units, so never more than 20 000 |
| Clipboard.NormalizeEmptyIff | src/lib/clipboard.ts:3-5 | normalisation yields "" exactly when the input is all whitespace |
| Clipboard.NormalizeIsTrimPrefix | src/lib/clipboard.ts:3-7 | a non-empty result is a prefix of the trimmed input starting with non-whitespace; it equals the trimmed input when that fits, and is exactly its first MAX_LEN units when it does not |
| Clipboard.NormalizeIdempotentWhenShort | src/lib/clipboard.ts:3-7 | normalising twice equals normalising once when the trimmed input is not cut |
| Clipboard.TrimEndIgnoresWhitespaceSuffix | src/lib/clipboard.ts:4 | appending whitespace does not change the right-trimmed text |
| Clipboard.NormalizeNotIdempotent | src/lib/clipboard.ts:1-7 | some input normalises differently the second time, because of the cut at MAX_LEN |
| Clipboard.Uint32 | src/lib/clipboard.ts:15 | `>>> 0` gives a value below 2^32 |
| Clipboard.Int32 | src/lib/clipboard.ts:12-13 | ToInt32 keeps the residue modulo 2^32 |
| Clipboard.Xor | src/lib/clipboard.ts:12 | the bitwise xor is 0 exactly when both operands are equal |
| Clipboard.XorBound | src/lib/clipboard.ts:12 | the xor of two 32-bit values is a 32-bit value |
| Clipboard.XorUnit | src/lib/clipboard.ts:12 | xor-ing in a 16-bit code unit gives a 32-bit value |
| Clipboard.ShiftLeft | src/lib/clipboard.ts:13 | `x << k` is a signed 32-bit value congruent to x * 2^k modulo 2^32 |
| Clipboard.FnvStep | src/lib/clipboard.ts:12-13 | one FNV-1a round on a 32-bit word gives a 32-bit word |
| Clipboard.Fnv | src/lib/clipboard.ts:10-14 | the FNV-1a value of any text is a 32-bit word |
| Clipboard.Uint32OfInt32 | src/lib/clipboard.ts:12-13 | re-reading an Int32 value as unsigned gives back the unsigned value |
| Clipboard.Pow2Add | src/lib/clipboard.ts:13 | 2^(a+b) = 2^a * 2^b |
| Clipboard.Pow2Values | src/lib/clipboard.ts:12-15 | 2^8, 2^16 and 2^32 have their usual values |
| Clipboard.ShiftSumIsPrimeMultiply | src/lib/clipboard.ts:13 | `hash + (hash<<1) + (hash<<4) + (hash<<7) + (hash<<8) + (hash<<24)` equals `hash * 16777619` modulo 2^32 |
| Clipboard.ToHex | src/lib/clipboard.ts:15 | `toString(16)` yields at least one lowercase hex digit |
| Clipboard.DigitValueOfDigit | src/lib/clipboard.ts:15 | each hex digit reads back as its own value |
| Clipboard.FromHexToHex | src/lib/clipboard.ts:15 | reading the hex form back gives the number |
| Clipboard.ToHexInjective | src/lib/clipboard.ts:15 | different numbers print differently |
| Clipboard.ToHexNoLeadingZero | src/lib/clipboard.ts:15 | the hex form starts with '0' exactly for the number 0 |
| Clipboard.ToHexAtMostDigits | src/lib/clipboard.ts:15 | a number below 16^k prints in at most k digits |
| Clipboard.HashOf | src/lib/clipboard.ts:9-16 | the fingerprint reads back, as hex, to the FNV-1a value of the text |
| Clipboard.HashShape | src/lib/clipboard.ts:9-16 | a fingerprint is 1 to 8 lowercase hex digits, with no leading zero unless it is "0" |
| Clipboard.HashOfEmpty | src/lib/clipboard.ts:9-16 | the fingerprint of "" is "811c9dc5", the FNV offset basis |
| Clipboard.OffsetBasisHex | src/lib/clipboard.ts:10-15 | the offset basis prints as "811c9dc5" |
| Clipboard.HashContent | src/lib/clipboard.ts:9-16 | the loop of xor and shift-sum steps returns the hex form of the FNV-1a value (xor, then multiply by the FNV prime modulo 2^32) of the input |
| Clipboard.ShouldSkipDuplicate | src/lib/clipboard.ts:18-27 | skips exactly when a prior acceptance exists (truthy hash and time), the hashes are equal and nowMs <= lastAtMs + windowMs |
| Clipboard.NoPriorNeverSkips | src/lib/clipboard.ts:18-25 | with a falsy last hash or last time, nothing is skipped |
| Clipboard.SkipIffSameHashInWindow | src/lib/clipboard.ts:18-26 | with a prior acceptance, a submission is skipped exactly when its hash equals the last one and at most windowMs has passed (inclusive) |
| Clipboard.SkipExamples | src/lib/clipboard.ts:23-26 | with the default 2 000 ms window, the same hash 500 ms later and 2 000 ms later is skipped; a different hash, or 2 001 ms later, is not |
| Env.MissingKeys | src/lib/env.ts:18 | a key is reported missing exactly when it is in the list and is absent or empty |
| Env.Join | src/lib/env.ts:20 | `join` begins with the first part and ends with the last |
| Env.ReadFirebaseEnv | src/lib/env.ts:17-28 | succeeds exactly when all four required keys are set, then maps each key to its field; otherwise the error starts with "Missing env: " |
| Env.MissingKeysInOrder | src/lib/env.ts:18 | missing keys are reported in REQUIRED order |
| Env.ErrorListsMissingKeys | src/lib/env.ts:18-21 | the error is "Missing env: " followed by the missing keys joined with ", " |
| Env.OnlyRequiredKeysMatter | src/lib/env.ts:17-27 | two environments that agree on the required keys give the same outcome |
| Env.MissingKeysAgree | src/lib/env.ts:18 | missing-key lists agree for environments that agree on the listed keys |
| Env.UnsetKeysAllMissing | src/lib/env.ts:10-18 | when none of the keys is set, every key is reported as missing, in its order |
| Env.EmptyEnvMissesAll | src/lib/env.ts:10-18 | for the empty environment, all four keys are missing |
| Env.EmptyEnvMessage | src/lib/env.ts:10-20 | for the empty environment, the message starts with "Missing env: VITE_FIREBASE_API_KEY" |
| Device.KeyValueStore.GetItem | src/lib/device.ts:13 | reading throws when storage is disabled, and otherwise gives the stored item or none |
| Device.KeyValueStore.SetItem | src/lib/device.ts:16 | writing stores the item, or throws and stores nothing |
| Device.IdGenerator.IdAt | src/lib/device.ts:3-8 | without `crypto.randomUUID`, ids start with "web-" |
| Device.IdGenerator.Generate | src/lib/device.ts:3-8 | each call draws the next id of the oracle |
| Device.GetOrCreateDeviceId | src/lib/device.ts:10-21 | no window or a throwing read gives a fresh id; a non-empty stored id is returned unchanged; otherwise a new id is stored and returned, and if storing throws, another fresh id is returned and nothing is stored |
| Device.SecondCallReturnsSameId | src/lib/device.ts:10-17 | with working storage, two calls return the same id and draw at most once |
| Types.ClipIds | src/components/DashboardPage.tsx:144 | the id set holds exactly the ids of the clips |
| Clips.DocIds | src/hooks/useClips.ts:105-107 | the id set holds exactly the ids of the documents |
| Clips.Without | src/hooks/useClips.ts:104-108 | deleting by id keeps, in order, exactly the documents whose id is not deleted |
| Clips.WithoutKeepsDistinct | src/hooks/useClips.ts:127 | deleting keeps document ids distinct |
| Clips.WithoutPrefixIds | src/hooks/useClips.ts:101-108 | batch-deleting the ids of the first k documents leaves exactly the rest, when ids are distinct |
| Clips.WithoutNone | src/hooks/useClips.ts:127 | deleting no ids changes nothing |
| Clips.WithoutIgnoresAbsent | src/hooks/useClips.ts:127 | deleting an id that is not present changes nothing more |
| Clips.DocNameInjective | src/hooks/useClips.ts:85 | distinct creations get distinct document ids |
| Clips.AppendFreshKeepsValid | src/hooks/useClips.ts:85 | appending under an unused id keeps ids distinct |
| Clips.CollValidWeaken | src/hooks/useClips.ts:104-108 | deleting keeps a collection's ids distinct and issued |
| Clips.ClipStore.Add | src/hooks/useClips.ts:85-90 | `addDoc` appends one document with a fresh id, or fails and changes nothing |
| Clips.ClipStore.Delete | src/hooks/useClips.ts:127 | `deleteDoc` removes the document with that id, or fails and changes nothing |
| Clips.ClipStore.GetPage | src/hooks/useClips.ts:101 | `getDocs(limit(500))` returns the first min(n, 500) documents |
| Clips.ClipStore.CommitBatchDelete | src/hooks/useClips.ts:104-108 | a batch commit deletes all its ids or none |
| Clips.ClipStore.FaultFreeJoin | src/hooks/useClips.ts:100-111 | two adjacent fault-free call ranges form one |
| Clips.ClipStore.ClearPage | src/hooks/useClips.ts:101-108 | one round reads a page and deletes it as a batch: the collection loses exactly that prefix, or nothing on failure |
| Clips.ClipStore.DeleteAll | src/hooks/useClips.ts:100-111 | the outcome `ClearedAll`: on success the collection is empty after ceil(n/500) commits; other users are untouched; a failure stops at the first failing call, leaving a suffix of the documents |
| Clips.ToClip | src/hooks/useClips.ts:56-61 | a clip carries its document's id and every data field |
| Clips.ToClips | src/hooks/useClips.ts:56-61 | the history is the snapshot's documents mapped one by one, in order |
| Clips.SubmitRejection | src/hooks/useClips.ts:75-82 | the guard chain: not signed in is reported first; an empty normalised text exactly when signed in; a duplicate exactly when signed in, non-empty and `shouldSkipDuplicate` holds for its hash, which then equals the remembered one; no refusal exactly when signed in, non-empty and not a duplicate |
| Clips.ResubmitWithinWindowRefused | src/hooks/useClips.ts:76-82 | after acceptance, content with the same normalised form is refused as a duplicate within 2 000 ms and accepted after |
| Clips.BlankInputRefused | src/hooks/useClips.ts:76-77 | whitespace-only input is refused as empty, never as a duplicate |
| Clips.ClipSync.constructor | src/hooks/useClips.ts:21-47 | mounting starts with no latest clip, an empty history, no dedup pair and a latest-clip query only when signed in |
| Clips.ClipSync.ChangeUser | src/hooks/useClips.ts:28-47 | a user change detaches the old latest query; signing out clears the latest clip, signing in starts a new query; history and dedup pair are kept |
| Clips.ClipSync.OnLatestSnapshot | src/hooks/useClips.ts:38-46 | the live query's snapshot sets the latest clip to its first document, or to none; stale snapshots change nothing |
| Clips.ClipSync.StartHistory | src/hooks/useClips.ts:49-62 | subscribes only when signed in and not already subscribed |
| Clips.ClipSync.StopHistory | src/hooks/useClips.ts:64-70 | detaches and empties the history only when subscribed |
| Clips.ClipSync.OnHistorySnapshot | src/hooks/useClips.ts:56-61 | only the live history query's snapshot replaces the history |
| Clips.ClipSync.SyncClip | src/hooks/useClips.ts:73-94 | refusals (not signed in, empty, duplicate) write nothing, commit nothing and keep the dedup pair; an accepted submission records the pair before the write, then appends the normalised clip with its hash, or rejects with the pair still recorded |
| Clips.ClipSync.Accept | src/hooks/useClips.ts:83-90 | records hash and time, then adds one document holding the normalised content, its hash and the label "web"; the batch-commit count is unchanged |
| Clips.ClipSync.DeleteClip | src/hooks/useClips.ts:123-134 | deletes exactly that document of the signed-in user, or reports 删除记录失败 and changes nothing; no batch is committed |
| Clips.ClipSync.ResetLocal | src/hooks/useClips.ts:113-116 | the dedup pair, latest clip and history are emptied |
| Clips.ClipSync.ClearHistory | src/hooks/useClips.ts:96-121 | on success the collection is empty and the dedup pair, latest clip and history are reset; on failure (清空历史失败) local state is kept and the store holds a suffix of the old documents |
| Presence.ShownCount | src/hooks/useDevicePresence.ts:36 | the shown count is max(size, 1) |
| Presence.PresenceStore.SetDevice | src/hooks/useDevicePresence.ts:19-29 | a merge write sets this device's four fields, or fails and writes nothing |
| Presence.DevicePresence.constructor | src/hooks/useDevicePresence.ts:8-60 | mounting starts with count 1 and runs the effect once |
| Presence.DevicePresence.SyncPresence | src/hooks/useDevicePresence.ts:19-29 | writes the device id, "web", the email or null and a server time; a failure is swallowed and writes nothing; the store clock advances only on a successful write |
| Presence.DevicePresence.RunEffect | src/hooks/useDevicePresence.ts:12-53 | signed out resets the count to 1 and writes nothing; signed in writes once and starts a new listener session |
| Presence.DevicePresence.Teardown | src/hooks/useDevicePresence.ts:55-59 | cleanup ends the session and keeps the count |
| Presence.DevicePresence.Unmount | src/hooks/useDevicePresence.ts:55-59 | unmounting runs the cleanup: no session remains, the count is kept and the hook stays consistent |
| Presence.DevicePresence.UnmountSilencesEvents | src/hooks/useDevicePresence.ts:55-59 | after unmounting, a snapshot, a listener error, a heartbeat and a visibility change of the old session change neither the count nor the store |
| Presence.DevicePresence.Rerender | src/hooks/useDevicePresence.ts:12-60 | a new user or email tears down the old session and re-runs the effect; the count stays at least 1 |
| Presence.DevicePresence.OnSnapshot | src/hooks/useDevicePresence.ts:35-37 | a live snapshot sets the count to max(size, 1); a stale one changes nothing |
| Presence.DevicePresence.OnSnapshotError | src/hooks/useDevicePresence.ts:38-40 | a listener error resets the count to 1 |
| Presence.DevicePresence.HeartbeatTick | src/hooks/useDevicePresence.ts:43-45 | a live session's tick writes the record once; a torn-down timer writes nothing |
| Presence.DevicePresence.VisibilityChange | src/hooks/useDevicePresence.ts:47-53 | becoming visible writes the record; hiding or a removed listener writes nothing |
| Dashboard.ToggleSetValue | src/components/DashboardPage.tsx:49-54 | the value is in the result exactly when it was not in the set; every other member is unchanged |
| Dashboard.ToggleTwice | src/components/DashboardPage.tsx:49-54 | toggling twice gives back the original set |
| Seqs.SubsequenceRefl | src/components/DashboardPage.tsx:105-114 | a list is an order-preserving sublist of itself |
| Dashboard.Select | src/components/DashboardPage.tsx:105-127 | `filter` keeps, in order, exactly the clips satisfying the predicate, and is never longer |
| Dashboard.SelectCounts | src/components/DashboardPage.tsx:105-127 | `filter` keeps every copy of a kept clip and no copy of a dropped one |
| Dashboard.VisibleHistory | src/components/DashboardPage.tsx:105-108 | exactly the history clips whose id is not hidden, in order, each as often as in the history |
| Dashboard.Matches | src/components/DashboardPage.tsx:113 | the empty query matches every clip, and a matching query is no longer than the content |
| Dashboard.MatchesIffContains | src/components/DashboardPage.tsx:113 | a clip matches exactly when its lower-cased content contains the query at some index |
| Dashboard.FilteredHistory | src/components/DashboardPage.tsx:110-114 | an empty trimmed, lower-cased query gives every visible clip; otherwise exactly the visible clips whose lower-cased content contains it, in order, each as often as in the visible list |
| Dashboard.QueryTrimmedAndLowered | src/components/DashboardPage.tsx:111 | surrounding whitespace and letter case of the query do not change the result |
| Dashboard.NormalQueryIsFixed | src/components/DashboardPage.tsx:111 | a trimmed, lower-cased query is unchanged by trimming and lower-casing again |
| Dashboard.LowerKeepsEnds | src/components/DashboardPage.tsx:111 | lower-casing keeps non-whitespace ends non-whitespace |
| Dashboard.LowerIdempotent | src/components/DashboardPage.tsx:111 | lower-casing twice is lower-casing once |
| Dashboard.Pinned | src/components/DashboardPage.tsx:116-122 | exactly the pinned clips, as an order-preserving sublist |
| Dashboard.Unpinned | src/components/DashboardPage.tsx:116-122 | exactly the unpinned clips, as an order-preserving sublist |
| Dashboard.PinKey | src/components/DashboardPage.tsx:118-119 | the key is 1 for a pinned clip and 0 otherwise |
| Dashboard.PinCompare | src/components/DashboardPage.tsx:117-121 | the comparator puts a before b exactly when only a is pinned, after exactly when only b is, and ties otherwise |
| Dashboard.Insert | src/components/DashboardPage.tsx:117-121 | insertion adds exactly one copy of the clip and loses nothing |
| Dashboard.SortByPin | src/components/DashboardPage.tsx:116-122 | the stable sort is a permutation of its input |
| Dashboard.PinGroupsArePermutation | src/components/DashboardPage.tsx:116-122 | the two groups together hold every clip as often as the list does |
| Dashboard.InsertUnpinned | src/components/DashboardPage.tsx:117-121 | an unpinned clip is inserted after every pinned clip and before the unpinned ones |
| Dashboard.InsertPinned | src/components/DashboardPage.tsx:117-121 | a pinned clip is inserted in front |
| Dashboard.InsertPinnedGroups | src/components/DashboardPage.tsx:117-121 | a pinned clip inserted into the pinned-then-unpinned list joins the front of the pinned group |
| Dashboard.SortStep | src/components/DashboardPage.tsx:116-122 | one insertion keeps the sorted list split into its pinned and unpinned groups |
| Dashboard.SortByPinPartitions | src/components/DashboardPage.tsx:116-122 | the stable sort by the comparator gives the pinned clips, then the unpinned ones |
| Dashboard.ModalHistory | src/components/DashboardPage.tsx:116-122 | `modalHistory` is a permutation of the filtered list and equals its pinned clips followed by its unpinned ones |
| Dashboard.ModalHistoryPinnedFirst | src/components/DashboardPage.tsx:116-122 | `modalHistory` is a permutation of the filtered list: pinned clips first, unpinned after, order kept within each group |
| Dashboard.MainHistory | src/components/DashboardPage.tsx:124-127 | without a latest clip, all visible clips; otherwise exactly those whose id differs from the latest one, in order, each as often as in the visible list |
| Dashboard.VisibleMainHistory | src/components/DashboardPage.tsx:128-131 | the prefix of length max(0, min(len, count)) |
| Dashboard.TotalClips | src/components/DashboardPage.tsx:133 | the visible count, except 1 when nothing is visible but a latest clip exists |
| Dashboard.FormatHistoryTime | src/components/DashboardPage.tsx:25-47 | no timestamp or an age under a minute (negative ages included) is "just now"; under an hour is n minutes with n in [1, 59] and n minutes <= age < n+1 minutes; under a day is n hours, n in [1, 23]; older shows the date |
| Dashboard.FormatLatestTime | src/components/DashboardPage.tsx:32-35 | no latest clip shows "just now"; otherwise the clip's history label |
| Dashboard.FittingRows | src/components/DashboardPage.tsx:320-340 | the count is at most len; with no height it is len; otherwise that many rows with 12-pixel gaps fit, and one more would not unless len is reached |
| Dashboard.FittingRowsExample | src/components/DashboardPage.tsx:331-340 | a 220-pixel list of 92-pixel rows shows 2 rows; a zero-height list shows all |
| Dashboard.DashboardState.constructor | src/components/DashboardPage.tsx:87-103 | nothing hidden or pinned, empty search, row height 92, no row limit |
| Dashboard.DashboardState.TogglePin | src/components/DashboardPage.tsx:794 | the pin button toggles the clip's id in the pinned set |
| Dashboard.DashboardState.Recalculate | src/components/DashboardPage.tsx:320-340 | without a list nothing changes; a measured positive row height is remembered; the count becomes the fitting-row count |
| Dashboard.DashboardState.BeginDelete | src/components/DashboardPage.tsx:203-221 | before the remote call the id is hidden and unpinned, and highlights of it and the tooltip are cleared |
| Dashboard.DashboardState.FinishDelete | src/components/DashboardPage.tsx:223-237 | success keeps the state; failure un-hides the id and re-pins it if it was pinned |
| Dashboard.DashboardState.HandleDeleteClip | src/components/DashboardPage.tsx:203-238 | success leaves the id hidden and unpinned; failure restores the pins exactly, and restores the hidden set when the id was not hidden before; either way the highlights of that id and the tooltip are cleared, and other highlights are kept |
| Dashboard.DashboardState.BeginClearAll | src/components/DashboardPage.tsx:143-160 | hides exactly the visible ids; clears pins, search and highlights |
| Dashboard.DashboardState.FinishClearAll | src/components/DashboardPage.tsx:162-170 | failure un-hides exactly the ids hidden at the start |
| Dashboard.DashboardState.HandleClearAll | src/components/DashboardPage.tsx:143-171 | success leaves nothing visible; failure restores the hidden set exactly; pins, search and both highlights stay cleared either way |
| Dashboard.HiddenVisibleDisjoint | src/components/DashboardPage.tsx:143-171 | no visible id is already hidden, so un-hiding them after hiding restores the set |
| Dashboard.ClearedLeavesNothingVisible | src/components/DashboardPage.tsx:143-149 | once every visible id is hidden, the visible history is empty |

## Left out

- The document store, authentication and the network are not modelled. The stores are in-memory classes with a fault oracle. Snapshot contents are inputs of the event methods.
- Server-side ordering by `createdAt` and the `limit(1)`/`limit(50)` queries of the live subscriptions are not modelled. Snapshot documents arrive in the order given.
- `serverTimestamp()` is not modelled. New clips carry no `createdAt`. A presence record's `lastSeenAt` is the store's write counter.
- `clipDate` is simplified: a `createdAt` that is not a timestamp object counts as absent, and timestamps are whole milliseconds.
- `toLocaleDateString()` is not modelled. An old clip's label carries its timestamp, not locale text.
- `toLowerCase` maps only ASCII A-Z. Other Unicode case mappings are not modelled.
- `generateDeviceId` is an oracle: the k-th call yields the k-th value. The randomness, `Date.now().toString(36)` and `Math.random` formatting are not modelled.
- React machinery is not modelled: rendering, effect scheduling and dependency arrays. Hook state is class fields, and an effect re-run is an explicit method.
- Timers are events: `HeartbeatTick` stands for each firing of the 60 000 ms interval. The copied-row highlight and tooltip timers are not modelled.
- Interleavings during an `await` are modelled only for delete and clear-all, as separate begin and finish methods. The combined methods assume nothing happens in between.
- Concurrent writers during clear-all are not modelled. Neither are documents created while it pages.
- Tooltip geometry, `storageUsedKb` (floating point), the theme toggle, the account menu and scroll locking are not modelled.
- DOM measurement is not modelled. `Recalculate` receives the list's presence, the first row's height and the list height as integers.
- Clipboard.NormalizeIdempotentWhenShort: holds only when the trimmed input fits in MAX_LEN. `Clipboard.NormalizeNotIdempotent` shows it fails otherwise.
- Clips.ClipSync.SyncClip: a rejected create promise is the outcome `Rejected`. The error value it carries is not modelled.
- Presence.DevicePresence.constructor: the device id is a parameter. The model does not tie it to the value `Device.GetOrCreateDeviceId` returns when the hook mounts.
- Presence.DevicePresence.OnSnapshotError: the service ends the device-list listener after an error, but the model does not stop later snapshots of that session. The heartbeat and visibility listeners of the session do stay live.
- JavaScript numbers are unbounded integers. Timestamps beyond 2^53 and NaN are not modelled.
