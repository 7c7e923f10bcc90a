# Verified model of Plex Manager's stateful and parsing code

A Dafny 4.11 model of five parts of Plex Manager, with proofs of what they promise:

1. **The pre-migration backup protocol** (`BackupDisk`, `BackupHook`, `BackupPrune`, `BackupEffects`,
   `BackupProtocol`, `BackupStart`, `BackupSafety`, `BackupTheorems`, `BackupWitnesses`, `BackupExact`, `BackupTidy`,
   `BackupComplete`). One container start is a sequence
   of durable effects on published units, staging directories and the marker file. The class
   `BackupHook.BackupRoot` performs them step by step and is proved to perform exactly the planned ones, so
   a killed process is a start cut after some effect. `BackupProtocol` puts starts, kills, half-applied
   revisions, stamps, image changes, archiving and rollbacks into one state machine, and the theorems speak
   of every run of it.
2. **The incremental SSE parser and the reconnect loop** (`SseText`, `SseFrames`, `SseParser`,
   `SseRoundTrip`, `SseDelivery`, `Reconnect`). The class `SseParser.Parser` is proved, for every way of cutting a stream
   into chunks, against a one-shot decode of the whole text and against a line machine written from the
   WHATWG HTML Living Standard, section 9.2.5 (line terminators) and section 9.2.6 (interpreting an event
   stream). The one difference from the standard is stated, not hidden: the code delivers an unterminated
   last block, the standard drops it.
3. **The value-based log redactor and the scanners beside it** (`RedactPattern`, `RedactScan`,
   `RedactApart`, `RedactLongest`, `RedactGreedy`, `RedactQuote`, `RedactKnown`, `RedactWords`, `RedactExact`,
   `RedactShort`, `RedactKeyName`, `Scanners`, `Containers`).
   Percent-encoding is section 2.1 of RFC 3986; that hex case does not matter is its section 6.2.2.1.
4. **The TV-scope migration** (`ScopeKey`, `ScopeRows`, `ScopeMigration`), with SQL's three-valued
   conditions, left joins, check constraints and partial unique indexes.
5. **Client freshness** (`Preview`, `Authority`, `TileKeys`, `TileState`): three small asynchronous protocols, each a
   class and a theorem over every run of renders, effects, answers, fetches and polls, and the query key of a
   set of tiles.

`Wrappers`, `Sequences` and `Media` hold an `Option` type, one stock lemma and the media types.

## What the proofs found

- **Backups.** That only clean states are published is proved under five hypotheses, stated in `BackupProtocol`:
  (a) the marker can be read while an upgrade is in flight; (b) no other image is installed while one is in flight;
  (c) the unit that the marker names is not moved out while one is in flight; (d) a start that an upgrade begins from
  leaves it shielded: the marker names a published unit, and its head is no stamp that the upgrade can stop at; (e) a
  database exists before the first migration, since a fresh install that dies half-way is snapshotted dirty by its
  next start. Everything else may fail or happen: marker faults at rest, raised hooks in flight, at the head and on
  shielded retries, restores, units moved out at rest, images changed at rest. The rollback that the manifest documents
  is lawful as it stands (`BackupTheorems.DocumentedRollback`).
- **What makes a beginning safe is exact.** For every start at rest below the head, whatever fails in it and however
  its hook ends, the upgrade is left shielded if and only if every lawful continuation publishes clean units only
  (`BackupExact.StartIsSafeIff`). Read off the world before the start (`BackupExact.SafeBeginnings`): a backup whose
  marker is written is safe; a skipped backup is safe exactly when the upgrade was shielded already; a hook that
  raises, which `main` swallows, exactly when it was shielded and the hook left the marker alone; a backup whose marker
  cannot be written, exactly when the marker before is kept and still shields. For (a), (b), (c) and (e)
  `BackupWitnesses` has runs that break only that one and publish a dirty unit, which shows each is needed, not that
  its wording is the weakest.
- **How an upgrade comes to be unshielded.** Besides a failed marker write and a swallowed raise: a newer image
  installed after the marker is written and before the upgrade begins; a rolled-back database whose unit is never moved
  out before the next upgrade; a start that finds the database at its head while a unit for that very revision is
  published, which clears the marker. `BackupTidy` shows that operators who avoid all of these never begin an
  unshielded upgrade.
- **Staging directories** are named by revision and second and are reused when they exist. A start within the same
  second that does not include a key can publish a key file left there by a killed attempt. A start keeps every
  visible unit complete if and only if its backup, when it takes one, includes a key or finds none in its staging
  directory (`BackupComplete.StartIsComplete`); `BackupComplete.StaleKeyIsPublished` is a run from an empty disk
  that fails.
- **Redaction.** A secret that overlaps the placeholder can survive. The pass scans for all renderings of all values at
  once, so the condition is stated for a whole alternation. For one value free of escape signs, under all its
  renderings, and for any shortest rendering of several values (`RedactExact.OneValueExactly`,
  `RedactExact.ShortestExactly`): it survives in some text if it can begin inside a placeholder, or can run into one
  while its beginning is kept in front of some text that the scan masks; otherwise it is absent from every output,
  unless it holds a placeholder of its own and runs into another after it. An encoded form is such a text: the base64
  rendering holds no bracket, so the value itself is never hit early in front of it, and overlapping the placeholder
  decides it but for early hits of other renderings (`RedactExact.EncodedFormExposes`, `RedactExact.ApartExactly`).
  For everything the first condition leaves out, with escapes, of any length and holding any placeholders, checking the
  outputs shorter than twice the rendering and two placeholders decides (`RedactShort.ShortOutputsDecide`). A secret
  with a literal `%XX` holding a hex letter makes its `quote` pattern match spellings of another secret; without one it
  never does (`RedactQuote.QuoteMatchesOnlySpellings`, both directions). The limit of 64 nested candidates is
  unreachable.
- **Containers.** The comment at src/plex_manager/logsafe.py:395-397 says that every string of a printed container is
  consumed at any depth and that only closing brackets can be left behind. That holds if and only if no nested
  container holds another, or the first that does comes last at every level (`Containers.OnlyClosersAreLeft`); a
  string behind a list of lists in a list is left (`Containers.DeepLeavesStrings`).
- **Preview.** A preview that is shown comes from a run started after the last change of title, provided each run
  is started from the callback of the last render, or in the gap before that render's effect. For any other
  callback there is a continuation that shows an old answer (`Preview.StaleCallback`), although the comment at
  frontend/src/components/useTitleReleasePreview.ts:47-55 says that an answer landing in that gap never shows.
- **Tiles.** No tile ever reads Failed, Evicted or Cancelled for a status of the contract. For a status outside
  it the fallback label does so exactly when the status is that capitalised word.

## Model

| member | source | states |
|---|---|---|
| BackupHook.BackupRoot.CreatePreMigrationBackup | src/plex_manager/db_backup.py:538-736 | One start performs exactly its plan's durable effects in order, with its outcome, and every kill point leaves the disk after a prefix of them; `BackupStart` says what they come to |
| BackupStart.StartExactly | src/plex_manager/db_backup.py:538-675 | Every end a start can come to, whatever fails, from what it finds: a backup is attempted exactly when the database is below a known head or the head is unknown, its revision has no unit and no marker stands; without one at most the marker is cleared, at the head only |
| BackupStart.BackupLeaves | src/plex_manager/db_backup.py:678-707 | A backup leaves its unit with the database, the key file exactly when it is the active key, the revision and the time, and the marker that names it |
| BackupStart.BackupPrunes | src/plex_manager/db_backup.py:717-735 | Below a known head a backup leaves its own unit, the four newest others and no staging directory; under an unknown head nothing is removed |
| BackupStart.RaiseLeaves | src/plex_manager/db_backup.py:684-707 | A backup that raises publishes and removes nothing, has written its marker unless the staging directory failed, and a build that raises clears that directory |
| BackupStart.MarkerPrecedesUnit | src/plex_manager/db_backup.py:686-707 | Wherever a start is killed, a unit it made visible is its own and the marker that names it is in place |
| BackupHook.BackupRoot.BuildUnit | src/plex_manager/db_backup.py:684-706 | Staging, marker, snapshot, key and manifest in that order; a step that raises leaves the marker and clears the staging directory |
| BackupHook.BackupRoot.CopyActiveKey | src/plex_manager/db_backup.py:341-380 | The disposition and the key copy: an override wins, then a key file, a failed copy raises |
| BackupHook.BackupRoot.Prune | src/plex_manager/db_backup.py:482-535 | Sweeps every staging directory, then removes the stale units that can be removed, and nothing else |
| BackupDisk.GlobHitsOwnLabel | src/plex_manager/db_backup.py:617-618 | The glob for one from-revision lists the units of that revision only, never those of a revision it is a prefix of |
| BackupPrune.PruneKeepsNewest | src/plex_manager/db_backup.py:482-535 | With no failed removal: no staging directory is left, the protected unit survives whatever its mtime, and of the others the newest `keep` minus the protected one |
| BackupPrune.FailedRemovalOnlyEnlarges | src/plex_manager/db_backup.py:507-535 | A removal that fails keeps its own directory and changes nothing else |
| BackupPrune.ProtectedIsNeverStale | src/plex_manager/db_backup.py:517-530 | Corollary: the protected unit is never among the removed, for any directory set, mtimes and `keep` |
| BackupSafety.EventKeepsSound | src/plex_manager/db_backup.py:538-736 | Every lawful start, kill, migration step, stamp, restore, archiving and image change keeps units clean, one per revision, and upgrades shielded |
| BackupTheorems.OnlyCleanUnitsArePublished | src/plex_manager/db_backup.py:538-736 | Over every lawful run from an empty directory: every published unit is a stamped database with nothing half applied, one per revision, and an upgrade in flight is shielded by a marker naming such a unit |
| BackupTheorems.OwnUnitGuards | src/plex_manager/db_backup.py:636-675 | When no upgrade begins under another upgrade's marker, the unit that guards an upgrade in flight is the snapshot of the very state it started from |
| BackupTheorems.OthersUnitGuards | src/plex_manager/db_backup.py:653-675 | The converse: any other lawful beginning is followed by an upgrade that some other state's unit guards |
| BackupTheorems.RetriesChangeNothing | src/plex_manager/db_backup.py:617-675 | Any number of same-image restarts, kills and partial migrations short of the head leave units, staging and marker of a shielded upgrade as they are, as long as the marker can be read |
| BackupTheorems.PendingStartPublishes | src/plex_manager/db_backup.py:617-735 | A faultless start with something to migrate publishes a unit of the current state exactly when its revision has none and no marker guards it |
| BackupTheorems.CompletedUpgradeIsBackedUp | src/plex_manager/db_backup.py:645-652 | After an upgrade completes, the first start of a newer image publishes a clean unit of the completed state if none is there for its revision; if one is, that start begins an unshielded upgrade |
| BackupTheorems.DocumentedRollback | src/plex_manager/db_backup.py:443-469 | Restoring, re-pointing the image, starting and then moving the unit out is lawful and leaves the next upgrade to take a fresh backup |
| BackupExact.StartIsSafeIff | src/plex_manager/db_backup.py:538-758 | For every start at rest below the head, whatever fails in it and however its hook ends: it leaves the upgrade shielded if and only if every lawful continuation publishes clean units only |
| BackupExact.SafeBeginnings | src/plex_manager/db_backup.py:617-758 | The same condition read off the world before the start, for a skipped backup, a raised hook, a written marker and an unwritten one |
| BackupSafety.RaisedHookShieldsIff | src/plex_manager/db_backup.py:685-707 | A hook that raises leaves the upgrade shielded exactly when it was, and the hook raised before its marker was written or could not write it |
| BackupSafety.UnwrittenMarkerShieldsIff | src/plex_manager/db_backup.py:131-145 | A backup whose marker cannot be written shields exactly when the old marker is kept, its head shields and its unit outlives the prune |
| BackupSafety.SturdyIsLawful | src/plex_manager/db_backup.py:538-758 | Corollary: where the marker works, no raise is followed by a migration and skipped backups are shielded, beginnings are lawful |
| BackupTidy.TidyRunsStayClean | src/plex_manager/db_backup.py:538-736 | Runs whose images change between upgrades, whose rollbacks move stale units out and whose starts re-arm no unit are lawful |
| BackupTidy.KnownHeadsKeepTheirOwnUnit | src/plex_manager/db_backup.py:564-579 | Where every start can tell its head the last condition is not needed, and the guarding unit is the state the upgrade started from |
| BackupComplete.VisibleUnitsAreComplete | src/plex_manager/db_backup.py:677-707 | After any starts, each with any faults and killed anywhere, staging directories reused or not: every visible unit is complete and the only one of its revision, unless a backup found a stale key |
| BackupComplete.StartIsComplete | src/plex_manager/db_backup.py:677-707 | One start keeps every visible unit complete at every kill point exactly when its backup, if it takes one, finds no stale key |
| BackupComplete.CompleteUnlessStaleKey | src/plex_manager/db_backup.py:684-707 | When a published unit is complete: exactly when a key is included or the staging directory held no old key |
| BackupComplete.StaleKeyIsPublished | src/plex_manager/db_backup.py:341-380 | From an empty disk: killed after the key copy, then started in the same second with the override set, the hook publishes a unit that is not complete |
| BackupWitnesses.WithoutMarkerRead | src/plex_manager/db_backup.py:104-128 | A run that publishes a dirty unit when only the marker's reads may fail in flight |
| BackupWitnesses.WithoutSteadyImage | src/plex_manager/db_backup.py:646-652 | A run that publishes a dirty unit when only the image may change in flight |
| BackupWitnesses.WithoutGuardKept | src/plex_manager/db_backup.py:653-658 | A run that publishes a dirty unit when only the marker's unit may be moved out in flight |
| BackupWitnesses.UnwrittenMarkerUnshields | src/plex_manager/db_backup.py:131-145 | A run that publishes a dirty unit after a backup whose marker could not be written |
| BackupWitnesses.RaisedHookUnshields | src/plex_manager/db_backup.py:739-758 | A run that publishes a dirty unit after a raised backup was followed by the migration |
| BackupWitnesses.PendingImageUnshields | src/plex_manager/db_backup.py:646-652 | A run that publishes a dirty unit after a newer image replaced one whose upgrade was pending |
| BackupWitnesses.KeptUnitUnshields | src/plex_manager/db_backup.py:617-634 | A run that publishes a dirty unit after a rollback whose unit was never moved out |
| BackupWitnesses.ClearedMarkerUnshields | src/plex_manager/db_backup.py:568-579 | A run that publishes a dirty unit after a start at head cleared the marker of a published unit |
| BackupWitnesses.WithoutExistingDatabase | src/plex_manager/db_backup.py:560-562 | A run that publishes a dirty unit when only the database may be missing at first |
| SseParser.Parser.ParseStream | frontend/src/lib/realtime.ts:37-76 | For every chunking the callbacks see what the one-shot decode of the whole text gives, which is what the standard's machine dispatches with a final flush; decoding fails at the same frame or not at all |
| SseDelivery.SentIsDelivered | frontend/src/lib/realtime.ts:37-122 | After `ParseStream` on any printed items the callbacks hold exactly what each item gives, in order: the payload when its topics are strings, the non-empty reason of an item named `closed`, nothing for any other; the first payload that does not decode ends the parse |
| SseParser.Parser.Feed | frontend/src/lib/realtime.ts:58-70 | After each chunk the buffer, the held CR and the deliveries are those of all the text so far |
| SseParser.Parser.NormalizeChunk | frontend/src/lib/realtime.ts:46-56 | A trailing CR is held back, and what is emitted is the normalised rest |
| SseParser.Parser.DrainFrames | frontend/src/lib/realtime.ts:63-69 | Delivers every complete frame of the buffer and keeps what follows the last boundary |
| SseParser.Parser.EmitFrame | frontend/src/lib/realtime.ts:78-106 | Delivers what the frame's fields say: an event, a readable close reason, nothing, or a failure; `SseDelivery.SentIsDelivered` says which |
| SseParser.Parser.BufferHoldsNoFrame | frontend/src/lib/realtime.ts:62-70 | Between chunks the buffer holds no CR and no blank-line boundary |
| SseParser.FailedPrefix | frontend/src/lib/realtime.ts:96-97 | A frame that fails to decode settles the outcome of every longer stream |
| SseText.NormalizeHeldBack | frontend/src/lib/realtime.ts:46-56 | Holding back a trailing CR makes normalisation agree with that of the whole, whatever follows |
| SseText.FramesAppend | frontend/src/lib/realtime.ts:62-69 | Cutting frames is incremental: only what follows the last boundary matters for later text |
| SseFrames.OneShotMeetsStandard | frontend/src/lib/realtime.ts:78-106 | The decode of a whole text equals the standard's machine; the standard's result is it without the unterminated last block |
| SseFrames.FlushAsOneFrame | frontend/src/lib/realtime.ts:72-75 | Flushing the leftover as one frame, even when the held CR completes a blank line, changes no message |
| SseRoundTrip.PrintedFramesParseBack | frontend/src/lib/realtime.ts:46-106 | Printed events and heartbeats parse back to the same names and payloads, for LF, CR LF or CR and any chunking |
| Reconnect.LivelyIsNotAborted | frontend/src/lib/realtime.ts:222-231 | With ideal timers a stream whose silences stay within the watchdog's time is never aborted |
| Reconnect.SilenceIsCaught | frontend/src/lib/realtime.ts:222-231 | On a live stream nothing happens later than one watchdog time and one heartbeat after the last byte, and a late beat aborts |
| Reconnect.BackoffExactly | frontend/src/lib/realtime.ts:302-313 | Every wait exactly: 2, 4, 8, then always 16 times the base under the maximum, counted from the last connection that lasted for the window, after which it is the shortest again |
| Reconnect.BackoffBounds | frontend/src/lib/realtime.ts:302-313 | Every wait lies between 2 and 16 times the base under the maximum, and waits never shrink until a connection lasts for the window |
| Reconnect.ReloadMeansNewVersion | frontend/src/lib/realtime.ts:233-241 | A reload is asked for exactly when two different versions came in chunks, before the end or the abort of their streams and before the loop ended |
| Reconnect.RefusalIsFinal | frontend/src/lib/realtime.ts:256-267 | The first 401, 403 or stop ends the loop: no later attempt changes anything, only 401 asks for a sign-in, and no wait follows but one that a stop cuts short |
| Reconnect.RealtimeStream.ReadStream | frontend/src/lib/realtime.ts:277-292 | The loop over chunks and beats ends, aborts and notes versions as the watch function says |
| Reconnect.RealtimeStream.Run | frontend/src/lib/realtime.ts:243-315 | The loop over attempts waits, notes versions, stops and disconnects as the session function says |
| RedactPattern.VariantRegex | src/plex_manager/logsafe.py:736-760 | The loop over escapes builds the pattern of the whole rendering |
| RedactPattern.VariantLanguage | src/plex_manager/logsafe.py:731-760 | A pattern accepts exactly the strings of its rendering's length that differ in the case of digits of `%XX`, `%25XX`, `\uXXXX` and `\xXX` escapes, wherever these stand |
| RedactPattern.SolidusTolerantRegex | src/plex_manager/logsafe.py:881-892 | The loop over solidi builds the tolerant pattern of the whole body |
| RedactPattern.TolerantLanguage | src/plex_manager/logsafe.py:881-892 | It accepts exactly the strings that spell the rendering with each solidus plain or behind a backslash and escape digits in either case |
| RedactLongest.LongerMatchLongerSource | src/plex_manager/logsafe.py:731-760 | If one match is a proper prefix of another its pattern's source is strictly shorter, escapes cut in the middle included |
| RedactLongest.FirstIsLongest | src/plex_manager/logsafe.py:1059-1062 | With the longest source first, the alternative taken at a position is the longest match there |
| RedactGreedy.ScanTakesLongest | src/plex_manager/logsafe.py:1059-1062 | In the pass's own alternation: where any rendering matches the scan has a match, at least as long as that of any rendering |
| RedactQuote.QuoteMatchesOnlySpellings | src/plex_manager/logsafe.py:818-824 | The pattern of a percent-encoding matches exactly its mixed-case spellings, all of which decode to the secret if and only if it holds no literal `%XX` with a hex letter |
| RedactScan.Substitute | src/plex_manager/logsafe.py:1060-1062 | The scanning loop computes the leftmost, first-alternative, non-overlapping replacement |
| RedactScan.ScanIsComplete | src/plex_manager/logsafe.py:1059-1062 | After the scan for patterns whose matches are all apart from placeholders none of them matches anywhere, overlapping secrets included |
| RedactApart.ApartPattern | src/plex_manager/logsafe.py:736-760 | A rendering that overlaps no placeholder compiles to a pattern none of whose matches does, in any hex case and either solidus spelling |
| RedactExact.OneValueExactly | src/plex_manager/logsafe.py:974-1062 | One value free of escape signs, scanned for under all its renderings, none a key word: it survives in some text if survivable; otherwise, unless it runs into a placeholder after one that it holds, it is absent from every output |
| RedactExact.ShortestExactly | src/plex_manager/logsafe.py:1059-1062 | The same for a shortest rendering of any alternation |
| RedactExact.UnsurvivableIsAbsent | src/plex_manager/logsafe.py:1059-1062 | In any alternation a pattern none of whose matches is survivable is absent from every output |
| RedactExact.ExposedSurvives | src/plex_manager/logsafe.py:1059-1062 | A value whose beginning is kept in front of a masked text survives there |
| RedactExact.InsideSurvives | src/plex_manager/logsafe.py:1059-1062 | A value that can begin inside a placeholder survives behind what the first alternative masks |
| RedactExact.EncodedFormExposes | src/plex_manager/logsafe.py:826-846 | A value that runs into a placeholder is survivable, with any rendering without brackets in its place, unless another rendering is hit early |
| RedactExact.ApartExactly | src/plex_manager/logsafe.py:826-846 | Where no other rendering is hit early, being apart from placeholders is exactly what a value needs |
| RedactShort.ShortOutputsDecide | src/plex_manager/logsafe.py:1059-1062 | For any alternation and any pattern: absent from every output if and only if absent from the outputs shorter than twice its length and two placeholders |
| RedactKnown.SecretValueVariants | src/plex_manager/logsafe.py:771-878 | The result is exactly the renderings: the value, its percent, base64 (padded and unpadded), JSON and `repr` forms, and, up to 16384 characters, percent of percent, base64 of percent in upper or lower case, percent of base64; the count limit excludes none |
| RedactKnown.RenderingsAreListed | src/plex_manager/logsafe.py:826-866 | The lists built by stripping padding and lowering escapes hold exactly those forms, told by position |
| RedactKnown.ValuesAreMaskable | src/plex_manager/logsafe.py:646-660 | Values of the default length without angle brackets and other than `redacted`, none rendered as a key word, have renderings the scan masks for good |
| RedactKnown.RedactKnownSecrets | src/plex_manager/logsafe.py:974-1062 | The output is one scan for exactly the renderings of the values of at least the length asked for; when they are maskable no instance of any, unpadded and nested ones included, is left; with none the text is unchanged |
| RedactKeyName.MaskKnownValue | src/plex_manager/logsafe.py:895-971 | An occurrence is left readable exactly when it is a key word, no authority ends at its identifier within 512 characters, a separator follows, and a shape found from 96 before it to 512 behind its longest separator has it in its key and its value behind |
| RedactWords.KeyWordsAre | src/plex_manager/logsafe.py:260-264 | A key word is a word of the grammar in any case, its parts joined by nothing, a dash or an underscore |
| RedactKeyName.Verified | src/plex_manager/logsafe.py:962-971 | Leaving a grammar at the first match past the occurrence loses no covering shape |
| RedactKeyName.ProbeFindsSeparator | src/plex_manager/logsafe.py:713-713 | The probe finds a separator whenever one starts there and reads it to its longest end |
| RedactKeyName.ProbeIsSeparator | src/plex_manager/logsafe.py:713-713 | What the probe reports is a separator |
| RedactKeyName.ProbesAreDisjoint | src/plex_manager/logsafe.py:702-712 | Corollary of what a probe reads: a later occurrence starts after all that an earlier probe has read |
| RedactKeyName.MaskIsTheScans | src/plex_manager/logsafe.py:895-971 | Corollary of the definition: the guard's replacement is what the scan shows for that match |
| Scanners.PrintedLiteralScans | src/plex_manager/logsafe.py:316-321 | The scan of a printed literal consumes exactly its body, whatever follows |
| Scanners.QuotedRunIsBody | src/plex_manager/logsafe.py:316-321 | On any text the scan takes a well-formed body and stops at the closing quote, at the end, or at a lone last backslash |
| Scanners.StringRunIsBody | src/plex_manager/logsafe.py:410-410 | On any text the run inside a container's string takes a well-formed body and stops at the quote, at the end, or at a backslash before a newline or the end |
| Scanners.ElemRunStops | src/plex_manager/logsafe.py:402-411 | A run of elements goes on to the next bracket outside a string or to the end, truncated strings included |
| Containers.ContainerIsMachine | src/plex_manager/logsafe.py:410-411 | On any text the nested possessive pattern reads what a machine of two states reads, which ends at a closing bracket outside a group |
| Containers.ContainerScansExactly | src/plex_manager/logsafe.py:410-419 | What the scan consumes of a printed container nested to any depth, whatever its strings hold and whatever follows: the whole, or all up to the end of the first nested container that holds one |
| Containers.PrintedContainerScans | src/plex_manager/logsafe.py:389-397 | A printed container is consumed whole if and only if it is nested at most two deep |
| Containers.OnlyClosersAreLeft | src/plex_manager/logsafe.py:395-399 | Exactly when nothing but closing brackets is left behind: no container in it holds one, or the first that does comes last at every level |
| Containers.DeepLeavesStrings | src/plex_manager/logsafe.py:395-399 | Any string after a list of lists in a list is left behind |
| ScopeKey.KeysAreCanonical | migrations/versions/5e8b1a4f2c9d_tv_download_scopes_waiting.py:72-87 | Two keys are equal exactly when the seasons are equal and the same set of episodes is meant |
| ScopeKey.NormalFormIsSet | migrations/versions/5e8b1a4f2c9d_tv_download_scopes_waiting.py:72-81 | Normalised episodes are equal exactly when the sets are, null, empty and missing being no episodes |
| ScopeKey.KeyReads | migrations/versions/5e8b1a4f2c9d_tv_download_scopes_waiting.py:84-87 | The key spelled out: the season, and the meant episodes in increasing order or a star |
| ScopeKey.KeyFailsExactly | migrations/versions/5e8b1a4f2c9d_tv_download_scopes_waiting.py:72-81 | A key does not exist exactly for a text that does not parse or a list with an item that is no number |
| ScopeRows.OneRowEach | migrations/versions/5e8b1a4f2c9d_tv_download_scopes_waiting.py:154-198 | The joins and the condition give each season download of a show exactly one row, with its season request and the scope status of its own status, and no other download any |
| ScopeRows.RowsDoNotClash | migrations/versions/5e8b1a4f2c9d_tv_download_scopes_waiting.py:209-220 | From the old partial unique indexes, no two selected rows share a request and a key while active or blocked |
| ScopeRows.RepeatedSeasonClashes | migrations/versions/d3a7077fdbcc_tv_season_support.py:72-115 | Without the unique index on seasons one download becomes two clashing rows |
| ScopeMigration.UpgradedScopes | migrations/versions/5e8b1a4f2c9d_tv_download_scopes_waiting.py:154-199 | Every scope of the new table describes a wanted download, imported, blocked, failed, without release or active as that is, and carries the key of its season and episodes |
| ScopeMigration.Database.BackfillScopeKeys | migrations/versions/5e8b1a4f2c9d_tv_download_scopes_waiting.py:90-103 | The update loop gives each scope its own key and nothing else, or raises where some episodes have none |
| ScopeMigration.Database.Upgrade | migrations/versions/5e8b1a4f2c9d_tv_download_scopes_waiting.py:124-231 | From any old database it fails exactly when a selected download's episodes have no key; otherwise all new constraints hold |
| ScopeMigration.Database.Downgrade | migrations/versions/5e8b1a4f2c9d_tv_download_scopes_waiting.py:234-256 | From any new database it succeeds, all old constraints hold, waiting requests and seasons are pending, and every other is as it was |
| ScopeMigration.Database.AtReads | migrations/versions/5e8b1a4f2c9d_tv_download_scopes_waiting.py:26-65 | What the constraints of each release come to, told from the statuses they name: one active request for a title, one open download for a slot, one active or blocked scope for a key |
| ScopeMigration.EveryRowKeepsTheIndex | migrations/versions/5e8b1a4f2c9d_tv_download_scopes_waiting.py:235-237 | However many rows the first update has demoted so far, the active index in place holds |
| ScopeMigration.NothingToDemote | migrations/versions/5e8b1a4f2c9d_tv_download_scopes_waiting.py:235-242 | Corollary: a downgrade right after an upgrade gives back every request as it was |
| Preview.ShownIsFresh | frontend/src/components/useTitleReleasePreview.ts:34-106 | Over every interleaving, what a render shows is for its title and from a run started after the last title change and the last clear; a render that changes the title shows nothing |
| Preview.LandsExactly | frontend/src/components/useTitleReleasePreview.ts:92-103 | An answer is stored under the title its run asked for, or its failure reported, exactly when no newer run has started and no clear and no title effect has come since; otherwise nothing changes |
| Preview.LandedIsShown | frontend/src/components/useTitleReleasePreview.ts:57-95 | An answer that may land, asked for the open title, is what every render of that title shows until a clear, a change of title or a newer run's answer |
| Preview.StaleCallback | frontend/src/components/useTitleReleasePreview.ts:73-77 | From any state, a run for another title started with no effect due has a continuation that shows an answer older than the title |
| Preview.WithoutFlushing | frontend/src/components/useTitleReleasePreview.ts:43-45 | Example: were due effects not run before a render, leaving a title and coming back would show an old run's answer |
| Preview.TitlePreview.RenderTitle | frontend/src/components/useTitleReleasePreview.ts:42-62 | A render runs due effects, clears on a change of title and shows the stored answer of its own title only |
| Preview.TitlePreview.Settle | frontend/src/components/useTitleReleasePreview.ts:92-103 | An answer is stored, or a failure reported, only under the run's own epoch |
| Authority.LiveStateAuthority.Render | frontend/src/api/hooks.ts:580-625 | The epoch is captured again when key or enabled flag change, and this render is judged by it |
| Authority.AuthorityMeans | frontend/src/api/hooks.ts:552-625 | Over every run, authority implies that the observer is enabled, that some fetch has succeeded, that no invalidation awaits its fetch and no fetch is under way after a failed one, and that the data were fresh at the epoch's opening or a fetch has settled in it |
| Authority.AuthorityExactly | frontend/src/api/hooks.ts:552-625 | When stamps are not reused the implication is an equivalence |
| Authority.ReusedStampWithholds | frontend/src/api/hooks.ts:620-624 | A reused stamp withholds authority although a fetch has settled |
| Authority.GrantLasts | frontend/src/api/hooks.ts:566-572 | Within one epoch a grant is withdrawn only while the data await a replacement |
| Authority.OpeningWithholdsStale | frontend/src/api/hooks.ts:602-607 | Corollary: a key change or an enable flip to stale data withholds authority in that same render |
| TileKeys.CollectKeys | frontend/src/api/hooks.ts:650-665 | The keys asked for are exactly the visible tiles, each once, in the order of their tokens |
| TileKeys.QueryNamesTheSet | frontend/src/api/hooks.ts:632-669 | Two surfaces share a query exactly when they show the same tiles, whatever the order and the repeats |
| TileKeys.QueryReads | frontend/src/api/hooks.ts:627-664 | The query's tokens spelled out: type, colon and number of each visible tile, in the order of code units |
| TileState.Tiles.DeriveTileState | frontend/src/lib/tileState.ts:187-241 | One derivation tracks the settle and then shows what the record then says |
| TileState.OneInvalidationEach | frontend/src/lib/tileState.ts:109-150 | Over every run the number of queued invalidations is the number of settled episodes |
| TileState.OneObservationEach | frontend/src/lib/tileState.ts:116-125 | Throughout an episode its observation time is that of the derivation that opened it |
| TileState.SettledTileShows | frontend/src/lib/tileState.ts:205-241 | In an episode a base fetched after its opening is shown verbatim, any other only as nothing or as In library |
| TileState.UnsettledTileShows | frontend/src/lib/tileState.ts:151-196 | Outside an episode a live status hides the base, and both read as the tables say, an unlisted status spelled out in neutral |
| TileState.TrustLasts | frontend/src/lib/tileState.ts:219-222 | Once a base is trusted in an episode every later one in it is shown verbatim |
| TileState.BadSettleIsNeverShown | frontend/src/lib/tileState.ts:197-241 | A tile reads Failed, Evicted or Cancelled exactly when its live status is that capitalised word, which no status of the contract is |

## Left out

- SQLite's online backup, `shutil`, Alembic's script directory, file permissions and logging: each is an
  atomic step that may fail where the code allows for it. A tree removal either happens or does not.
- The `created` time in the marker, the manifest's prose and the timestamp's format: no branch reads them.
- Revision identifiers with glob metacharacters or dashes: Alembic's are hexadecimal.
- Branching revision graphs: the image is a linear chain with a head, which may be unknown.
- `JSON.parse`, `json.loads`, `int`, and the percent, base64, JSON and `repr` encoders: opaque functions. The
  encoders are assumed not to shorten a value below the length floor nor to spell a placeholder.
- The weakest wording of the backup hypotheses other than (d): each has a run that needs it, no equivalence.
- `TextDecoder`: chunks are character sequences, after decoding.
- React Query's scheduling, garbage collection of cached queries, and toasts' text.
- The body and the pending flag of a preview request: fields copied one by one.
- `authority` and the five shape grammars of the key-name guard: opaque, with their matches in order.
- The cookie, basic-auth, authorization and Fernet passes of `redact_secrets`, and the two passes composed.
- Renderings with a solidus in the longest-match theorem: the code makes no promise there.
- Which part of a failed upgrade stays applied: a migration that raises is only said to leave requests,
  seasons and downloads as they were.
- The time columns and the plain indexes of the scope table, the column `requested_episodes_json`, and
  foreign keys: nothing proved depends on them.
- Overlapping reads of one connection and timers that drift: the watchdog theorems are about ideal timers.
- The realtime stream's invalidations per topic and the session-close notice: one-to-one tables.
- Leases, eviction, import and correction services: their code is not part of this model.
- RedactKnown.RedactKnownSecrets: states completeness when every rendering is apart from placeholders, because one
  that overlaps them can survive; `RedactExact` has the exact condition.
- RedactExact.OneValueExactly: for a value that holds a whole placeholder and runs into another after it only one
  direction is stated, because what follows the first placeholder may itself be masked; `RedactShort` decides it.
- Preview.ShownIsFresh: asks that runs start from the callback of the last render or before its effect, because
  any other start can break it.
