# jitenv, modelled in Dafny

jitenv keeps a TOML config of secret sources, secret bags and mappings from programs to environment variables. On disk
the config is keyed by opaque IDs and every value is sealed; in memory it is keyed by names. A terminal interface edits
it, an agent serves environments from it, a shell hook follows it from prompt to prompt, and a sync engine carries it
between machines. This project models that logic and proves what it keeps.

The model idealises the primitives. Sealing is symbolic: an envelope records its key, its associated data, its nonce and
its content, and opens only under the same key and associated data. SHA-256 is injective. TOML and JSON are abstract
encoders of which only decode-after-encode is known. Random draws are read from an arbitrary tape.

| Files | Part |
|---|---|
| Wrappers, Text | Option and Result; decimals and dotted names |
| Envelope, Slots, ConfigModel, ConfigLaws | envelopes, slot names, the config as a value, validation field by field |
| Live, Validation | the config as Go holds it in memory, and the loops that validate it |
| EncryptSpec, NameId, Encrypt, Decrypt | the save and the load, as relations between values and as in-place methods proved against them |
| Secrecy | what a saved file holds, slot by slot, and that none of it can be read |
| RoundTrip, Foreseen | what a save followed by a load gives back, told from the file and told before the save |
| Identity, Resave | stable and new IDs; envelopes cannot be moved; what a load and a save without edits changes |
| References, Editor, Session | renames, the save on a partial deep copy, and whole editing sessions |
| AtomicFile, Migrate, MigrationRace, MigrationRun | crash-safe writes, the one-shot migration, and any number of racing processes |
| Glob, GlobLaws | glob patterns, and what each form stands for |
| MappingIndex, LookupLaws, Chpwd | the mapping index, its order and pre-filter, and the per-prompt cache of a shell |
| Resolver, Environment | fetching an environment, and what it holds in terms of the config |
| AgentFetch, AgentServer | fetches during a wipe; reloads, shutdown and who serves a fetch |
| Sync, SyncNet | one push and one pull; many hosts with atomic exchanges |
| S3, S3Net | the S3 adapter; many hosts with every object operation a step of its own |
| SyncRefinement | object operations that nobody interrupts amount to the exchanges of SyncNet |
| PullRace | edits during a pull, on top of S3Net |
| Dotenv, DotenvForms, BagImport | the dotenv parser, its forms, and the merge into a bag |

Run `dafny verify dfyconfig.toml` in this directory.

How the parts fit together:

- `Encrypt.EncryptInPlace` and `Decrypt.DecryptInPlace` work on mutable objects, as the Go code does, and visit maps in
  any order. Their contracts speak of the relations `EncryptsTo` and `DecryptsTo` between plain values; the theorems of
  `RoundTrip`, `Foreseen`, `Identity`, `Resave`, `Session` and `Migrate` are about those relations and so hold for every
  order, every choice of IDs and every nonce.
- The protocols (`MigrationRace`, `SyncNet`, `S3Net`, `AgentFetch`, `AgentServer`, `Chpwd`, `Session`) are state
  machines over the same functions that the methods of their parts are proved against; their main lemmas speak of every
  position of every run.

## Where code and documentation differ

The model follows the code.

- internal/config/encrypt.go:239 says a save without edits produces a byte-identical file. The name_map envelope is
  indeed kept (`Resave.CycleKeepsDictionary`), but every other value is sealed again under a new nonce, so the file is
  the same exactly when there is nothing to seal (`Resave.ResavedFileIsSameExactly`).
- internal/config/mapping.go:226-232 says a path can match a glob only if it starts with the literal prefix. The
  directory d itself matches d/** but does not start with d/ (`Glob.PrefixMissesTheRoot`); that is the only exception
  (`MappingIndex.AnchorsAreSound`).
- internal/config/migrate.go:170-171 says nothing removes the backup automatically. The retention sweep does, after the
  rollback window (`AtomicFile.Sweep`).
- internal/syncadapters/s3/s3.go:284-287 says a meta that lags behind its blob is refused as incomplete and heals itself.
  A lagging meta is present, so it passes the fence of a host whose base it names, and that host's push replaces content
  nobody pulled (`S3Net.TornReadLosesUpdate`); a pull never applies the mixed pair (`S3Net.MixedPairsAreNeverApplied`).
- internal/syncadapters/s3/s3.go:387-395 says a half-present remote is never overwritten without --force. When the blob
  is absent and the GET of an orphan meta fails, the error returned is the blob's, which the engine reads as no remote
  state: the push goes on as a first push (`S3.OrphanMetaIsOverwritten`). That is the only such case (`S3.PushThrough`).
- internal/dotenv/dotenv.go:111-114 says a trailing inline comment is dropped from bare values. It is, unless the value is
  empty: then the blank before the comment is trimmed first, and the comment becomes the value
  (`DotenvForms.CommentBecomesValue`, `DotenvForms.BareValueWithComment`).
- internal/agent/server.go:383-386 says a fetch on the outgoing resolver finishes against fully populated state. It may
  also fail because the bags were cleared, and with two local sources it may even succeed with emptied values
  (`AgentFetch.AllOrNothingExactly`).

## Model

| member | source | states |
|---|---|---|
| RoundTrip.RoundTripExactly | internal/config/encrypt.go:30-252 | A sealed file of a valid config loads, and every load of it yields that config, if and only if no plaintext has the form of an envelope and no unresolved local reference is an ID of the dictionary; for every map order and every choice of IDs and nonces |
| RoundTrip.PlainRoundTrip | internal/config/decrypt.go:30-193 | For configs without envelope-like plaintext, the round trip holds if and only if no local reference is mistaken for a dictionary ID |
| RoundTrip.EnvelopeBreaksRoundTrip | internal/config/decrypt.go:38-100 | A config with an envelope-like plaintext never loads back as itself |
| Foreseen.RoundTripForeseen | internal/config/encrypt.go:71-252 | Told before the save: every file a save may write from a given prior dictionary loads back as the config, whatever IDs and nonces are drawn, if and only if no plaintext has the form of an envelope and no unresolved local reference is an ID the save may use |
| Foreseen.SafeForEveryChoice | internal/config/encrypt.go:71-149 | No dictionary a save may make captures a reference if and only if no reference is a known ID of a present bag or key, or an unused ID of the right form while some name is new |
| Foreseen.OnlyIdsMayBeCaptured | internal/config/nameid.go:75-87 | References that do not have the form of an ID are safe in every save |
| Foreseen.FirstSaveMayCaptureAnyId | internal/config/nameid.go:75-87 | At a first save every reference with the form of an ID is at risk, given a bag or key to mint an ID for |
| RoundTrip.OpensToOne | internal/config/decrypt.go:38-100 | Opening the envelopes of a file has one result |
| Encrypt.EncryptInPlace | internal/config/encrypt.go:30-252 | In place: the config becomes a file form that the save specification allows, with a new dictionary object that is a bijection between the names and the IDs used; known names keep an ID they had, others get one used nowhere before; each error has its cause: the dictionary does not open, the last 64 draws all hit IDs in use or drawn before, or a part of a name is empty; bag maps and the prior dictionary object are not written |
| Encrypt.AssignIds | internal/config/encrypt.go:98-149 | Reused and minted IDs together form a bijection with the names, whichever order the names are visited in |
| Encrypt.BuildDictionary | internal/config/encrypt.go:71-149 | The dictionary built names exactly the sources, bags and keys of the config |
| Encrypt.SealSources | internal/config/encrypt.go:153-171 | Parameters are sealed in the shared maps and the records move under their IDs; the error means an empty ID or parameter name |
| Encrypt.SealSecrets | internal/config/encrypt.go:173-191 | New ID-keyed bags hold the sealed values; the bags read stay as they were |
| Encrypt.TranslateToIds | internal/config/encrypt.go:291-328 | A var refers to IDs exactly where its source, and for a local source its bag and key, resolve |
| Encrypt.SealVars | internal/config/encrypt.go:199-235 | Every field and extra of every var is translated, then sealed under the name of its place |
| Encrypt.SealDictionary | internal/config/encrypt.go:237-250 | The name_map field is resealed exactly when it is absent or its content changed |
| Decrypt.DecryptInPlace | internal/config/decrypt.go:30-113 | In place: succeeds exactly when the dictionary and every envelope open, and then the config is one the file decrypts to, with its dictionary attached |
| Decrypt.OpenAll | internal/config/decrypt.go:38-100 | Every value is opened, or some value opens under no plaintext |
| Decrypt.RekeyMap | internal/config/decrypt.go:129-139 | Each key is replaced by its name; between keys of one name any value may stay |
| Decrypt.TranslateAll | internal/config/decrypt.go:120-193 | Sources, bags, keys and references are back under their names |
| Decrypt.BlockedDoesNotOpen | internal/config/decrypt.go:38-100 | When a step of opening fails, no plaintext form of the file exists |
| Decrypt.IdsBecomeReferences | internal/config/decrypt.go:166-193 | In whatever file: known IDs in the references of an opened var become names, a bag and a key only for a local source, and what is blank or unknown stays |
| Envelope.SlotRoundTrip | internal/crypto/envelope.go:48-117 | What was sealed opens under the same key and name; a skipped value stays as it is |
| Envelope.OpensExactly | internal/crypto/envelope.go:48-117 | An envelope opens under its own key only and an enc:v2 one under its own associated data only, a string that looks like one never does, and any other stays |
| Secrecy.NothingInClear | internal/config/encrypt.go:153-235 | Whatever the config, no parameter, secret, var field or extra of a saved file can be read: each is empty, an envelope, or was in the form of one before |
| Secrecy.PlainSlotIsSealed | internal/config/encrypt.go:153-235 | For plain configs, whatever is not blank in any slot of the file is an envelope of this save: under the key, under the name of the slot, with a new nonce, and holding exactly the text the config by ID has there |
| Secrecy.ReferencesBecomeIds | internal/config/encrypt.go:291-328 | In the file a source is named by its ID, and for a local source so are a bag and a key where they resolve; names, values and extras are as they were |
| Secrecy.SavedFileIsComplete | internal/config/encrypt.go:153-235 | Every source, bag, key, mapping and var of the config is in the file |
| Secrecy.DictionaryOpensExactly | internal/config/decrypt.go:30-60 | A name_map that was tampered with never passes for an empty one, and no file with such a field loads |
| Slots.SlotNamesAreInjective | internal/config/edit.go:48-74 | Two different slots with ID-shaped coordinates have different names, over all indices, fields, parameter and extra keys |
| Slots.SlotAadIsSlotName | internal/crypto/envelope.go:30-40 | The name builder fails only on an empty part, and otherwise gives the dotted name |
| Identity.TransplantFailsExactly | internal/config/decrypt.go:38-100 | An enc:v2 envelope of a saved file, the name_map among them, may turn up in another slot of a file that loads if and only if the two slots have one name |
| Identity.TransplantFails | internal/config/decrypt.go:38-100 | So moving it into any other slot with ID-shaped coordinates, which are all that a save writes, makes the load fail |
| Identity.NamesMayBeShared | internal/config/edit.go:48-74 | With a source ID that has a dot there are two slots of one name |
| Identity.SealedUnderOwnName | internal/config/encrypt.go:153-235 | Every envelope a save writes is bound to the name of the slot it is in |
| Identity.OpensOnlyUnderOwnName | internal/config/decrypt.go:38-100 | In a file that loads every envelope is of the loading key, and every enc:v2 one carries the name of its own slot; legacy enc:v1 envelopes are bound to no slot |
| Identity.IdsAreStable | internal/config/encrypt.go:71-149 | From a dictionary with unique names a save keeps the ID of every surviving source, bag and key, drops exactly the entries of deleted ones, and mints IDs that occur nowhere in the prior dictionary |
| Identity.NewIdsAreNew | internal/config/nameid.go:53-87 | A newly minted ID occurred in no table of the prior dictionary, whatever its kind |
| Identity.DictionaryStaysShaped | internal/config/nameid.go:53-87 | Dictionaries of well-formed IDs stay well-formed |
| Resave.CycleKeepsDictionary | internal/config/encrypt.go:237-247 | Save, load, save: with no condition on the config, the second save gives every name the ID it had and leaves the name_map envelope untouched |
| Resave.ResavedFileIsSameExactly | internal/config/encrypt.go:153-247 | Save, load, save, with new nonces: the two files are equal if and only if there is nothing to seal, that is no mapping and only blank strings elsewhere |
| NameId.NewId | internal/config/nameid.go:75-87 | The first untaken candidate of at most 64 draws, or failure when all 64 were taken |
| NameId.NameToId | internal/config/nameid.go:94-102 | Some inverse of the dictionary, whatever the iteration order |
| NameId.UniqueNamesInvert | internal/config/nameid.go:94-102 | With unique names the inverse is determined |
| NameId.StringMapEqual | internal/config/encrypt.go:272-282 | True exactly for equal maps |
| NameId.NameMapEqual | internal/config/encrypt.go:256-270 | True exactly for equal dictionaries |
| NameId.NeedsIdMigrationExactly | internal/config/nameid.go:162-189 | A config needs the migration exactly when some source, bag or key is not named by an ID |
| Text.DecimalInjective | internal/config/edit.go:65-74 | Different indices have different decimal forms |
| Validation.IsValid | internal/config/config.go:194-297 | The loops of Validate decide exactly the stated well-formedness of the config |
| Validation.MappingIsValid | internal/config/config.go:221-276 | The mapping rules: one kind, commands only and always with a cwd glob, at least one valid var |
| Editor.RewriteRefs | internal/tui/references.go:67-112 | Each of the three walkers changes exactly the references it is for, in every mapping |
| Editor.RenameNames | internal/tui/references.go:12-33 | Every ID with the old name gets the new one, the others stay |
| Editor.RenameIdMapKey | internal/tui/references.go:38-57 | The key is renamed under some bag ID with the name, or nothing changes |
| Editor.RenameSource | internal/tui/sources_screen.go:162-183 | The four outcomes of the screen; on success the source, its references and its dictionary entry move together |
| Editor.RenameBag | internal/tui/secrets_screen.go:200-221 | The same for a bag |
| Editor.EditKey | internal/tui/secrets_screen.go:590-632 | The same for a key of a bag, whose map changes in place, with its value set |
| Editor.CloneForSave | internal/tui/save.go:53-109 | The copy has the same content and shares no mutable object with the live config but the dictionary |
| Editor.SaveCmd | internal/tui/save.go:16-49 | A save that succeeds writes a sealed form of the live config and hands back the dictionary it used; a failed one changes neither file nor dictionary; no object of the live config but its dictionary pointer is written |
| Session.EverySaveIsFaithful | internal/tui/save.go:16-109 | Over every sequence of edits, renames and saves after a load, each written file loads back as the live config of that moment under the exact side conditions, and its dictionary opens to exactly the IDs it uses, although the live name_map field is never refreshed |
| Session.FileIsAlwaysFaithful | internal/tui/save.go:16-109 | At every point of a session the file is the one loaded, or loads back as the live config of the latest save under the exact side conditions, whatever was edited, renamed or failed to save since |
| Session.RenameLosesNothing | internal/tui/secrets_screen.go:200-221 | A rename in a session neither drops nor merges anything: one entry moves to a name nothing had, and all others stay as they are |
| Session.IdsPersist | internal/tui/references.go:12-57 | A source, bag or key followed through all renames of a session keeps one ID in every saved file, as long as it is never renamed onto a name the dictionary still has for something deleted |
| Session.IdIsSettledExactly | internal/config/nameid.go:94-102 | A name keeps a given ID in every assignment a save may make if and only if that ID is the only one with the name |
| References.RenamedSourceSameEnvironment | internal/tui/references.go:67-75 | Renaming a source leaves the environment of every path, directory and command unchanged |
| References.BagRenameSeenExactly | internal/tui/references.go:80-93 | What one var fetches survives the rename of a bag if and only if it did not already ask for the new name (or the old name was empty) |
| References.RenamedBagSameEnvironment | internal/tui/references.go:80-93 | Renaming a bag leaves the environment of a path unchanged when none of the vars looked up for it asks for the new name already |
| References.RenamedBagSameCwdEnvironment | internal/tui/references.go:80-93 | The same for a command in a directory |
| References.KeyRenameSeenExactly | internal/tui/references.go:99-112 | What one var fetches survives the rename of a key if and only if it neither takes the entries under their own names nor already asks for the new key (nor, when the old key is empty, takes the only entry of a bag with several) |
| References.RenamedKeySameEnvironment | internal/tui/references.go:99-112 | Renaming a key leaves the environment of a path unchanged when none of the vars looked up for it sees it, whatever other mappings do |
| References.RenamedKeySameCwdEnvironment | internal/tui/references.go:99-112 | The same for a command in a directory |
| References.RenamedBagSameEverywhere | internal/tui/references.go:80-93 | In a valid config whose references resolve, renaming a bag changes no environment of any path, directory and command |
| References.RenamedKeySameEverywhere | internal/tui/references.go:99-112 | Nor does renaming a key, when no var expands its bag |
| MappingIndex.Index.constructor | internal/config/mapping.go:45-69 | The index represents exactly the mappings |
| MappingIndex.Index.Lookup | internal/config/mapping.go:84-96 | The result is the plain scan: path matches, then glob matches, in declaration order |
| MappingIndex.Index.Mapped | internal/config/mapping.go:99-110 | True exactly when some path or glob mapping applies |
| MappingIndex.Index.LookupCwd | internal/config/mapping.go:116-134 | The vars of every cwd mapping that lists the command and matches the directory or an ancestor, in declaration order |
| MappingIndex.Index.CwdCommands | internal/config/mapping.go:139-162 | The commands of those mappings, each once, in order of first occurrence |
| MappingIndex.Index.Anchors | internal/config/mapping.go:236-252 | Exactly the path targets and the literal prefixes of the globs |
| MappingIndex.MatchAncestor | internal/config/mapping.go:181-192 | The walk ends, and finds a match exactly when the directory or one of its ancestors matches |
| MappingIndex.MappedAgreesWithLookup | internal/config/mapping.go:84-110 | In a valid config a path is mapped exactly when its lookup is not empty |
| MappingIndex.CommandsAgreeWithLookup | internal/config/mapping.go:116-162 | In a valid config a command is wrapped in a directory exactly when it resolves to some var there |
| MappingIndex.CwdVarsPersist | internal/config/mapping.go:116-134 | What applies in a directory applies in every descendant |
| MappingIndex.CwdCommandsPersist | internal/config/mapping.go:139-162 | So do the wrapped commands |
| MappingIndex.AnchorsAreSound | internal/config/mapping.go:236-275 | Every mapped path is an exact anchor or starts with a prefix anchor, except a directory itself under a pattern for all below it |
| LookupLaws.LookupByPosition | internal/config/mapping.go:84-96 | The vars of every matching path mapping come before those of every matching glob, and within each kind they come in the order of declaration, each as often as declared |
| LookupLaws.LastGlobWins | internal/config/mapping.go:84-96 | So the last var of the last matching glob decides the value of its name, wherever the matching path mappings are declared and whatever they say |
| LookupLaws.CwdByPosition | internal/config/mapping.go:116-134 | The vars of a command in a directory come in the order of declaration of the mappings that list it and match the directory or an ancestor |
| LookupLaws.DirectoryAppliesBelow | internal/config/mapping.go:73-80 | A cwd glob of a literal directory, with or without a trailing slash, applies exactly in that directory and everything below it |
| LookupLaws.FirstOccurrencesInOrder | internal/config/mapping.go:139-162 | The wrapped commands come in the order in which they are first listed |
| LookupLaws.AnchorsAreExact | internal/config/mapping.go:236-252 | No anchor is wider than a mapping: each is the target of a path mapping or the literal text a glob starts with |
| LookupLaws.TildeIsHome | internal/config/mapping.go:195-209 | A leading tilde, alone or before a slash, stands for the home directory, and nowhere else |
| Glob.ComputeLiteralPrefix | internal/config/mapping.go:260-275 | The loop computes the text before the first unescaped wildcard, escapes resolved |
| Glob.MatchHasPrefix | internal/config/mapping.go:260-275 | If a pattern matches a path, its literal prefix is a prefix of the path followed by a separator |
| Glob.PrefixMissesOnlyTheRoot | internal/config/mapping.go:260-275 | The prefix fails to be one of the path itself exactly when it is the path with a separator |
| Glob.PrefixMissesTheRoot | internal/config/mapping.go:222-235 | For every literal directory that case occurs |
| GlobLaws.LiteralMatchesItself | internal/config/mapping.go:84-96 | A pattern without special characters matches itself only |
| GlobLaws.EscapedMatchesItself | internal/config/mapping.go:254-275 | With every character behind a backslash so does any text |
| GlobLaws.StarStaysInDirectory | internal/config/mapping.go:84-96 | A literal directory and a star match exactly a separator and text without one behind that directory |
| GlobLaws.DoubleStarIsSubtree | internal/config/mapping.go:165-175 | A literal directory and a double star match exactly the directory and everything below it |
| GlobLaws.DoubleStarSkipsDirectories | internal/config/mapping.go:165-175 | A double star between separators stands for any number of directories, or none |
| GlobLaws.LiteralPrefixIs | internal/config/mapping.go:254-275 | The literal prefix is the text before the first special character |
| Resolver.PickValue | internal/agent/resolver.go:162-177 | A key picks its own value; without a key exactly a single entry is accepted |
| Resolver.LocalSource.Fetch | internal/sources/local/local.go:99-128 | One value, a whole bag, or one of the four errors |
| Resolver.LocalSource.Wipe | internal/sources/local/local.go:67-76 | Every value is emptied for all who share the bags, and the store is dropped |
| Resolver.BuildResolver | internal/agent/resolver.go:58-78 | A resolver whose sources answer as the decrypted config says and whose local sources share the bags of the config, or an error exactly when some source cannot be built |
| Resolver.AgentResolver.FetchAll | internal/agent/resolver.go:114-150 | The environment is the fold of the vars, and the first failure fails the whole |
| Environment.FetchedKey | internal/sources/local/local.go:99-128 | A var of a local source that names a bag and a key contributes exactly the string the config holds there, under its name, or under the key without one |
| Environment.FetchedBag | internal/agent/resolver.go:136-141 | Without a name and a key it contributes the whole bag, each string under its own key |
| Environment.FetchedOnlyEntry | internal/agent/resolver.go:162-177 | With a name and no key it contributes the only entry of its bag, or fails |
| Environment.FetchedNothing | internal/sources/local/local.go:99-121 | What is missing, and in which order it is missed |
| Environment.FetchedRemotely | internal/agent/resolver.go:126-150 | A var of any other source asks that source, with its parameters, for exactly what the var names |
| Environment.FirstFailureWins | internal/agent/resolver.go:114-150 | An environment fails exactly when some var does, with the failure of the first that does |
| Environment.LastAssignmentWins | internal/agent/resolver.go:114-150 | Otherwise it has exactly the names some var contributes, each with what the last of those vars gives it |
| Resolver.AgentResolver.Wipe | internal/agent/resolver.go:43-56 | Every local source is cleared, every bag value and every parameter kept beside the sources emptied, and the parameter maps dropped |
| AtomicFile.WriteFunc | internal/atomicfile/atomicfile.go:49-86 | The destination goes from its old bytes to all of the new ones in one step or not at all, in every state a crash may leave; a failure leaves no temporary file unless removing it fails |
| AtomicFile.WriteVerbatimBackup | internal/config/migrate.go:295-319 | The backup is a byte-for-byte copy; an existing file of that name is never changed |
| AtomicFile.Sweep | internal/config/migrate.go:401-425 | Until the stamp is as old as the retention, or with a negative one, nothing is touched; from then on exactly the backups go |
| Migrate.MigrateLocked | internal/config/migrate.go:233-285 | True only with the migrated bytes in place, false only with nothing done, an error only with the original bytes; every state in between is crash-safe |
| Migrate.MigrationKeepsMeaning | internal/config/migrate.go:257-285 | The migrated file loads back as the config the legacy file decrypts to, with the stamp, exactly under the conditions of any round trip |
| Migrate.MigratedOnce | internal/config/nameid.go:162-189 | A migrated file needs no further migration |
| Migrate.LegacyNamesStay | internal/config/migrate.go:252-259 | A config without a dictionary decrypts with its own names |
| MigrationRace.AlwaysRecoverable | internal/config/migrate.go:183-285 | With any number of processes migrating, saving and crashing, the config file always holds its original bytes or all bytes of one migrated config, and then some backup holds the original as long as less than the retention has passed since the stamp in the file, or for ever when the retention is negative |
| MigrationRace.AtMostOneRewrites | internal/config/migrate.go:183-285 | In every run a migration rewrites the file in at most one step, whether or not its process lives to report it |
| MigrationRace.ReporterRewrote | internal/config/migrate.go:183-210 | A process that reports a migration took that step, and no other process reports one |
| MigrationRace.RerunIsNoOp | internal/config/migrate.go:233-245 | Once migrated, a further migration reports false and touches nothing, before or after taking the lock |
| MigrationRace.RewriteMigrates | internal/config/migrate.go:247-285 | What a migration puts in place of the original is the legacy config decrypted and sealed again |
| MigrationRun.MigrationMayComplete | internal/config/migrate.go:233-301 | From every reachable world whose file is not migrated, an idle process may migrate it while nobody holds the lock: steps of its own put the migrated config in place, the original beside it, release the lock and report that it migrated, whatever IDs and nonces are drawn |
| MigrationRace.OutsideSaveKeepsProtocol | internal/tui/save.go:16-49 | A save by a session that loaded before the migration, or a pull, keeps the invariant of the runs exactly when it changes nothing, or the migration is done and it carries its stamp and needs none |
| MigrationRace.OutsideSaveIsSafeExactly | internal/config/migrate.go:257-301 | A crash after such a save does no harm exactly when it changes nothing, its window has ended, or some backup of the original is complete; after a migration and within its window it never does |
| MigrationRace.RerunAfterOutsideSaveExactly | internal/config/migrate.go:183-210 | After such a save a probe reports false exactly when the config saved needs no migration |
| Sync.PushConfig | internal/syncconfig/engine.go:47-117 | The adapter is asked to store the sealed config exactly when the fence lets it through, and the base becomes the pushed hash exactly when it was stored |
| Sync.PullConfig | internal/syncconfig/engine.go:131-179 | Bytes come back only on a fast-forward, or a first pull with adopt, and hash to what the meta claims; the base moves only then and on a noop |
| Sync.FencesAreComplementary | internal/syncconfig/engine.go:59-175 | A push passes exactly for no remote, noop and push-needed; a pull without adopt brings content exactly for a fast-forward; no state lets both through |
| Sync.DecisionMeans | internal/syncconfig/merge.go:59-87 | With a base, the decision says exactly which side changed |
| SyncNet.RunSyncPull | internal/cli/sync.go:311-417 | The config is written before the sidecar, and errors leave both alone |
| SyncNet.NoLostUpdate | internal/syncconfig/engine.go:58-116 | In every run a push without force that changes the remote replaces something its host itself had, up to re-encoding |
| SyncNet.PullKeepsUnpublishedWork | internal/syncconfig/engine.go:131-179 | In every run a pull without adopt, taken as one exchange, changes the config only if the old one had been published, whatever others forced |
| PullRace.PullSparesWorkExactly | internal/cli/sync.go:311-417 | With an edit possible between the read of the config and its replacement: a pull without adopt is sure to replace only published content, whatever the bytes of the edits are, if and only if its host made no edit since it started |
| PullRace.EditDuringPullIsLost | internal/cli/sync.go:311-417 | A run in which a pull replaces an edit nobody has a copy of |
| SyncNet.AdoptSparesSyncedHosts | internal/syncconfig/engine.go:148-175 | On a host with a base, adopt makes no difference to that |
| SyncNet.OnePullConverges | internal/cli/sync.go:349-417 | After a push and while nobody edits, one pull brings the pushed content, and the next finds nothing to do exactly when the pushed bytes are their own re-encoding |
| SyncNet.EveryHostConverges | internal/syncconfig/engine.go:131-179 | Over runs: once the remote holds some content and nobody edits or pushes, every host with nothing of its own to publish, or that has the content already under any base, has it, or its re-encoding, and the base after its first pull and from then on; its decision is then noop exactly when it has the content itself |
| SyncNet.AnchoredHostFollows | internal/cli/sync.go:355-358 | A pull that finds host and remote equal records it, whatever base the host had, none included: after others moved the remote on, the next pull follows without adopt |
| SyncNet.PusherFollows | internal/syncconfig/engine.go:86-116 | So it does on a host whose push went through |
| S3.S3Adapter.Pull | internal/syncadapters/s3/s3.go:400-443 | Two GETs of what the bucket holds: no state exactly when the blob is absent and no meta was read, half of the state exactly when one object is there and neither GET failed, or the pair; what the blob GET saw is remembered |
| S3.S3Adapter.Push | internal/syncadapters/s3/s3.go:288-352 | The blob is stored only if it is still what the latest Pull saw; the meta changes only after the blob |
| S3.PushThrough | internal/syncconfig/engine.go:49-100 | Pull, fence and push together: a push without force of a half-present remote is refused if and only if it is not the case that the blob is absent and the meta GET fails; a refusal changes nothing |
| S3.OrphanMetaIsOverwritten | internal/syncadapters/s3/s3.go:400-430 | That case happens: a meta without blob whose GET fails once is overwritten without force |
| S3.GuardedUnless | internal/syncadapters/s3/s3.go:338-352 | A push is unguarded exactly when the blob GET failed or gave no ETag, and a failed blob GET stops a push without force |
| S3Net.VersionsFormAChain | internal/syncadapters/s3/s3.go:288-443 | In every interleaving of the four object operations, each blob stored without force replaced exactly the version its writer had read |
| S3Net.MixedPairsAreNeverApplied | internal/syncconfig/engine.go:164-175 | What a pull opened and re-encoded into its config hashes to the meta it read and is the whole content of one stored blob |
| S3Net.MatchedReadLosesNothing | internal/syncconfig/engine.go:59-86 | A push without force that read a blob and a meta of one push replaces only its base or what it pushes, and so only something its host had, up to re-encoding |
| S3Net.FenceProtectsExactlyMatchedReads | internal/syncconfig/syncconfig.go:219-233 | The fence protects the replaced content, for every base and config, if and only if the blob read opens under the meta read (or the meta hash is empty) |
| S3Net.TornReadLosesUpdate | internal/syncadapters/s3/s3.go:288-312 | Without a matched read an update can be lost: a run in which a push without force replaces content its host never had and never saw the hash of |
| SyncRefinement.PushAlone | internal/syncadapters/s3/s3.go:288-443 | In every run, while the two objects agree: the object operations of a push that nobody interrupts store the blob exactly when the fence of the exchange lets it through, and amount to that one exchange |
| SyncRefinement.PullAlone | internal/cli/sync.go:311-417 | The same for a pull: applying, anchoring or doing nothing, it is the complete pull of the exchange |
| Chpwd.ShellDir.Reconcile | internal/chpwd/chpwd.go:281-350 | The directory ends up with exactly the wanted wrappers, and the result says whether it changed |
| Chpwd.ShellDir.Run | internal/chpwd/chpwd.go:64-157 | One prompt: skip, clear the anchors after a failed load, or bring everything up to date |
| Chpwd.CacheIsSound | internal/chpwd/chpwd.go:104-157 | Over whole sessions, after every prompt that skipped or whose stat and load saw one loadable config, wrappers and anchors are what a fresh computation gives; an edit between stat and load is made good by the next prompt |
| Chpwd.SkippingIsRecomputing | internal/chpwd/chpwd.go:108-116 | Skipping does exactly what recomputing would |
| Chpwd.WrappedCommandsResolve | internal/chpwd/chpwd.go:206-222 | In a valid config the wrapped commands are exactly those that resolve to some var |
| Chpwd.MovedAwayAndBack | internal/chpwd/chpwd.go:118-135 | That mtimes are never reused is needed: a run that ends with empty anchors for a config that has some |
| Chpwd.LoadMakesWrappers | internal/chpwd/chpwd.go:137-157 | A prompt that loads leaves one link to the binary for each command of each mapping that applies in the directory, and nothing else |
| Chpwd.FailedLoadKeepsWrappers | internal/chpwd/chpwd.go:118-135 | A prompt whose config does not load keeps the wrappers and the recorded mtime and empties the anchors |
| Chpwd.SkippedCacheExactly | internal/chpwd/chpwd.go:104-157 | In every session, reused mtimes included: a prompt that skips is up to date if and only if the config loads now and has the wrappers and anchors that were made from the config recorded under that mtime |
| Chpwd.OriginWasLoaded | internal/chpwd/chpwd.go:118-157 | What is recorded is what one prompt of the session loaded, in its directory, and cleared anchors come from a later load that failed |
| AgentFetch.FetchIsAllOrNothing | internal/sources/local/local.go:67-128 | In every interleaving with the wipe of its resolver, lock and copy steps included, a fetch gives exactly what the resolver held before or fails, when there is one local source |
| AgentFetch.AllOrNothingExactly | internal/agent/resolver.go:60-77 | All fetches of all runs are all or nothing if and only if there is at most one local source or no value to lose; otherwise some fetch succeeds with an emptied value |
| AgentServer.NoneWipedWhileInstalled | internal/agent/server.go:313-398 | In every interleaving no resolver is wiped while installed or twice, and the handlers in flight respect the cap |
| AgentServer.EachWipedExactlyOnce | internal/agent/server.go:220-248 | After a drained shutdown every resolver ever installed was wiped exactly once |
| AgentServer.AllWipedUnlessLateSwap | internal/agent/server.go:220-248 | Drained or not: once all handlers ended, every resolver was wiped if and only if no reload swapped one in after the final wipe |
| AgentServer.TimedOutReloadIsNeverWiped | internal/agent/server.go:366-394 | A run in which a reload that outlasts the wait leaves a resolver nobody wipes |
| AgentServer.ShutdownMayDrain | internal/agent/server.go:220-248 | From every reachable state before the end of the drain, the handlers in flight may end and the agent stop with every resolver wiped once |
| AgentServer.FetchIsServedByInstalled | internal/agent/server.go:329-363 | In every interleaving a fetch is served with the resolver installed when its handler captures it: the one the latest reload swapped in, or the first one, not wiped by then; there is none only after the final wipe |
| AgentServer.FetchKeepsItsResolver | internal/agent/server.go:329-363 | It keeps that resolver to its end, however many reloads pass meanwhile |
| Dotenv.Parse | internal/dotenv/dotenv.go:45-90 | Pairs in order, and one error for every line that is neither skipped nor good |
| Dotenv.UnquoteValue | internal/dotenv/dotenv.go:115-167 | The scan of the three quoting forms |
| Dotenv.QuotedRoundTrip | internal/dotenv/dotenv.go:45-167 | Every list of valid keys with arbitrary values, one double-quoted line each, parses back to exactly that list |
| DotenvForms.BareValue | internal/dotenv/dotenv.go:155-166 | A bare value stands for itself |
| DotenvForms.BareValueWithComment | internal/dotenv/dotenv.go:155-166 | An inline comment behind a bare value is dropped, with the blanks before it |
| DotenvForms.CommentBecomesValue | internal/dotenv/dotenv.go:75-80 | Behind an empty value the comment becomes the value |
| DotenvForms.SingleQuoted | internal/dotenv/dotenv.go:149-154 | Between single quotes every character stands for itself, and what follows is ignored |
| DotenvForms.DoubleQuoted | internal/dotenv/dotenv.go:119-148 | Between double quotes the documented escapes stand for their characters, and what follows is ignored |
| DotenvForms.EscapedCharacter | internal/dotenv/dotenv.go:119-148 | Anywhere between double quotes, backslash n, r and t stand for line feed, carriage return and tab, and a backslash before any other character for that character |
| DotenvForms.ExportMakesNoDifference | internal/dotenv/dotenv.go:92-108 | The export prefix and its blanks make no difference |
| DotenvForms.BadKey | internal/dotenv/dotenv.go:66-73 | A key that is no identifier is refused |
| DotenvForms.NoAssignment | internal/dotenv/dotenv.go:58-69 | A line without an equals sign, or without a key, is refused |
| DotenvForms.SkippedLines | internal/dotenv/dotenv.go:48-51 | Blank lines and comment lines are skipped |
| DotenvForms.OneCharacterLine | internal/dotenv/dotenv.go:48-51 | Of the lines of one character exactly the comment sign and the white space of Unicode are skipped |
| DotenvForms.ParsedByLine | internal/dotenv/dotenv.go:45-90 | Every line of a file gives its pair, its error or nothing, under its own number |
| BagImport.DedupePairs | internal/cli/bag_import.go:298-310 | The last pair of every key, in order |
| BagImport.DedupeKeepsKeys | internal/cli/bag_import.go:298-310 | Every key is kept exactly once |
| BagImport.BagUpsert | internal/cli/bag.go:60-94 | The named bag gets the merged content and nothing else changes |
| BagImport.ImportIsAssignment | internal/cli/bag_import.go:247-258 | Dedupe and overwrite give the bag that assigning all pairs one by one gives, and the counts add up to the distinct keys |
| BagImport.MergeRespectsPolicy | internal/cli/bag.go:60-94 | No key is dropped, a key changes only if the policy says so, and the keys counted as added are those the bag did not have |
| BagImport.PoliciesMean | internal/cli/bag.go:60-94 | With skip no key of the bag changes, with overwrite every imported key has its last value, and when asked the answer decides |
| BagImport.FirstOfManyStays | internal/cli/bag.go:60-94 | Of several pairs for a key the bag does not have the first one stays, unless the policy is to overwrite |

## Left out

- RoundTrip.RoundTripExactly: asks that the dictionary's IDs have the form newID mints, which every dictionary built from such a one, or from none, keeps; a dictionary with hand-made IDs is not covered.
- Session.IdsPersist: says nothing about an entity renamed onto a stale name; Session.IdIsSettledExactly shows that then its ID is not determined.
- S3Net.VersionsFormAChain: speaks of pushes without force; a forced push after a failed GET is unguarded (S3.GuardedUnless).
- AtomicFile.WriteFunc: models a crash of the process, not a power loss; fsync is a step that can fail but has no other effect.
- MigrationRace.AlwaysRecoverable: the processes share one retention setting and a clock that does not run backwards; restoring a backup by hand is no step of the runs, nor is a save by a session that loaded before the migration or a pull that brings a legacy file back, for which the OutsideSave lemmas say exactly what still holds.
- Chpwd.CacheIsSound: assumes no failing file operations, mtimes that are never reused, one jitenv binary per session, and that a prompt's old directory is the previous one's new directory.
- Foreseen.RoundTripForeseen: asks that bag names be unique in the prior dictionary, as in every dictionary a save made (Foreseen.SavesSettle); only a rename onto a stale name breaks that.
- Resave.ResavedFileIsSameExactly: is about live values in plain text; a value that is itself a genuine envelope is not covered.
- MappingIndex.Index.Anchors: gives sets; the sorting of the two lists and the NUL framing of the sidecar file are not modelled.
- Source parameters that are not top-level strings are opaque and unchanged; the recursion of DecryptStringsInPlace into tables and lists is not modelled.
- A config in which two slots share one map object, which neither decoding nor cloning ever makes, is excluded by Apart.
- A nil map and an empty map are not told apart, and a panic on an empty part of a name is an error result.
- Envelopes of a dictionary in the old enc:v1 format, invalid UTF-8 and base64 are not modelled.
- The agent settings and the key-derivation fields of the config are carried by no operation here and are left out of the config value.
- Glob classes and alternatives, path cleaning and the home directory are parameters of the host.
- Remote sources are one arbitrary function of their parameters and the request.
- The marker file by which the hook scopes one injection to one command.
- The screens, the command line, sockets, peer checks, idle timeout, the shim, process replacement and the shell snippets.
- AWS client setup, bucket validation, the file and ssh adapters, and the wrapping of the sync key.
- Failure of the random source itself, and the overlap of two reload callbacks loading different configs.
- Everything specific to Windows.
