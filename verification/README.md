# Verification of the signed audit chain and what is built on it

This project models the parts of adgate that its promises rest on and proves those promises.

- **Canonical JSON and the audit chain.** `utf16`, `canonical_json`, `json_reader`, `canonical_json_laws` and
  `canonicalize` give canonical JSON, an independent reader that inverts it and the code's own loop;
  `json_spelling` shows that its strings are spelled as short as can be.
  `audit_record`, `audit_contract` and `audit_spelling` give the record, its document and its schema; `chain` and
  `record_builder` hashing, signing, attesting and building, `built_records` what a built record says;
  `verify`, `verify_laws` and `verify_responses` the eight checks, their flags and their details.
- **The log as a state machine.** `chain_store` steps a log by append and attest, `chain_runs` and
  `chain_steps` hold the invariant every step keeps, `chain_verdicts` what verification answers in every
  reachable state, `chain_progress` when a step appends and when it refuses, `chain_retention` what it answers
  once retention has deleted the oldest records, `pruned_store` that this is what is read from the database,
  and `source_inputs` that the pipeline's own inputs are good ones. `head_history` shows when the last record_hash
  fixes the whole chain, and that otherwise it never does.
- **The report bundle.** `report_bundle` and `report_bundle_laws`: exactly when redaction preserves verdicts;
  `report_chain` joins it to the reachable logs.
- **The schema linker.** `schema_linker`, `schema_linker_laws`: two linking passes and a hoisting keep the
  meaning of every contract schema; `schema_linker_places` says where references appear and
  `schema_linker_titles` what becomes of names.
- **Caching and classifying.** `lru_cache` and `lru_recency`, `classifier`, `classifier_outcomes` and, on the
  heap, `classifier_heap`.
- **The dashboard.** `audit_paging` (keyset paging), `rate_limiter`, `client_address`, `address_rules` and
  `address_forms`, `report_reader` (bounded parallel map, memoising reader), `report` (aggregation), each with
  its laws.
- **The SDK stream.** `stream`.

## What is assumed

SHA-256 and Ed25519 are parameters. Of a digest nothing is assumed but its spelling: where two digests
could collide, the theorem names two records of the chains at hand whose hash inputs differ under one
digest. Of signatures it is assumed that what a private key signed its public half verifies. Numbers are
their shortest round-trip text. `Date.parse`, `String` of what is not a string, `localeCompare`, the clock,
the order of a key set and the arrival of answers are parameters or are left open, and the theorems hold for
every choice. Conditions a theorem needs are its `requires` clauses; `AuditContract.SourceIsSound` discharges
those about the record schema for the concrete schema of the repository.

## Where code and documentation part

- `packages/core/src/audit/verify-checks.ts:116-136` takes any object whose `pruned` is true for
  retention's marker, a stored document with such a key included, although `VerifyContext` describes the
  marker as something only retention produces. `HeadHistory.ChainPinsPredecessor` states exactly when a
  passing chain check pins the predecessor. `HeadFixesHistory` is stated for chains in which no document that
  another stands behind is such a one, and `AnyHeadHasAnotherPast` shows that this cannot be dropped.
- `packages/dashboard/lib/client-address.ts:68` says a dotted quad is legal only as the very last group; the
  code accepts one as the last group of the part before `::` too (`ClientAddressLaws.QuadBeforeGapAccepted`).
  It also reads scope ids and quads with padded numbers; `RfcFormsRead` shows that these three are all the
  differences from section 2.2 of RFC 4291.
- `packages/dashboard/lib/report-bundle.ts:37-39` says the contexts are rebuilt exactly as the gateway builds
  them; a bundle has no retention marker, so a record whose predecessor was pruned gets another chain
  response (`ReportBundleLaws.PrunedNeighbourIsLost`). So does one behind a stored document that itself says
  `pruned: true`, once that is cut down to two fields (`LookalikeIsLost`). `RedactionDecided` states exactly
  which records keep their response.
- `packages/sdk-python/scripts/generate_models.py:20-23` says that a contract name always means the contract
  schema of that name, because an inline look-alike is qualified with its owner. The qualified name is not
  checked in turn: `SchemaLinkerTitles.ClashesThatStay` states exactly when a subschema keeps the name of
  another definition, `ContractNameCanClash` gives four definitions for which it does.
- The rate limiter's bounds hold for at most `maxKeys` distinct keys; `RateLimiterLaws.EvictionForgets`
  shows what happens beyond, which `packages/dashboard/lib/rate-limit.ts:63-66` admits.

## Model

| member | source | states |
|---|---|---|
| JsonReader.ReadEscaped | packages/core/src/canonical/canonicalize.ts:24-26 | a printed string, surrogate pairs and lone surrogates included, is read back exactly, with whatever follows it untouched |
| JsonSpelling.PrintedIsShortest | packages/core/src/canonical/canonicalize.ts:24-26 | whatever well-formed UTF-16 text is read as a string, the printed text of that string is no longer |
| JsonSpelling.SpelledAsShortAsCanBe | packages/core/src/canonical/canonicalize.ts:24-26 | the printed text is well formed and read back, none is shorter, and with lower-case digits no other is as short: the spelling section 3.2.2.2 of RFC 8785 asks for, and the only one |
| Utf16.LessIsCodeUnitOrder | packages/core/src/canonical/canonicalize.ts:49-52 | one key sorts before another if and only if it is a proper prefix of it or has the smaller code unit where they first differ (section 3.2.3 of RFC 8785) |
| CanonicalJsonLaws.PrintsInCodeUnitOrder | packages/core/src/canonical/canonicalize.ts:49-57 | at every depth the members of what the canonical text is read back as stand in that order, so the text is printed in it |
| Canonicalize.KeysInCodeUnitOrder | packages/core/src/canonical/canonicalize.ts:51 | the sorted keys are the keys of the object that are not dropped, in that order |
| JsonReader.ParsePrinted | packages/core/src/canonical/canonicalize.ts:21-60 | an independent JSON reader inverts the printer on every normalised value, whatever follows that cannot continue a number |
| CanonicalJsonLaws.ReadsBack | packages/core/src/canonical/canonicalize.ts:21-60 | reading the canonical text of any accepted value gives its normal form: keys sorted, undefined members dropped, -0 as 0 |
| CanonicalJsonLaws.NormalFormDecides | packages/core/src/canonical/canonicalize.ts:2-19 | two accepted values have one normal form exactly when they are the same JSON up to member order, dropped members and -0 |
| CanonicalJsonLaws.CanonicalDecidesSameness | packages/core/src/canonical/canonicalize.ts:2-19 | equal canonical texts if and only if the same JSON: injective and order-blind at once |
| CanonicalJsonLaws.SplitsUniquely | packages/core/src/canonical/canonicalize.ts:21-60 | no canonical text of an object is a proper prefix of another followed by anything: text ++ suffix splits one way only |
| CanonicalJsonLaws.MemberOrderIsIrrelevant | packages/core/src/canonical/canonicalize.ts:49-57 | two objects that differ only in the order of their members print identically |
| Canonicalize.Serialize | packages/core/src/canonical/canonicalize.ts:21-32 | the recursive serialiser answers the canonical text, or the TypeError, of every JavaScript value |
| Canonicalize.SerializeArray | packages/core/src/canonical/canonicalize.ts:33-41 | the array branch, refusing undefined elements, prints elements in order |
| Canonicalize.SerializeObject | packages/core/src/canonical/canonicalize.ts:42-58 | the loop over sorted keys that pushes printed members gives the canonical text, dropping undefined members |
| AuditRecords.ParseDocument | packages/schemas/src/audit-record.ts:75-147 | a record the contract accepts is read back from its own document unchanged |
| AuditRecords.ParsedIsValid | packages/schemas/src/audit-record.ts:75-147 | whatever parses is valid again: parsing is idempotent, refinements included |
| AuditContract.SourceContractIsLawful | packages/schemas/src/audit-record.ts:30-147 | the concrete keys, literals and patterns satisfy every assumption the other proofs make of a contract |
| AuditContract.SourceIsSound | packages/schemas/src/audit-record.ts:30-147 | with digests and signatures spelled as the schema spells them, the whole environment of the source is sound and its canonical text readable |
| AuditContract.SourceKeepsCreativeId | packages/schemas/src/audit-record.ts:43-54 | parsing a creative drops unknown keys and keeps its id |
| AuditContract.BuiltCreativeIsSettled | packages/core/src/audit/record.ts:110-115 | the creative block the builder writes is accepted as it stands |
| AuditContract.BuiltDisclosureIsSettled | packages/core/src/audit/record.ts:160 | the disclosure block the builder writes is accepted as it stands when its label is not empty |
| AuditSpelling.FieldsAreSpelled | packages/schemas/src/audit-record.ts:34-124 | field by field the patterns accept exactly the values described as whole texts and numbers: a hash is sha256: and 64 lower-case hexadecimal digits, an id its prefix and something behind it, and so on |
| AuditSpelling.CountsAreSpelled | packages/schemas/src/audit-record.ts:88 | the pattern of the policy version accepts exactly the decimal texts of the whole numbers from 1 to 2^53 - 1 |
| AuditSpelling.DocumentIsSpelled | packages/schemas/src/audit-record.ts:75-124 | the 25 keys of a document, spelled out in their order, each with the value of its field |
| AuditSpelling.ContentIsSpelled | packages/core/src/audit/content-hash.ts:13-33 | the six keys of the hashed content, spelled out |
| Chain.SignatureInvisible | packages/core/src/audit/chain.ts:32-38 | record_hash does not depend on record_hash or signature |
| Chain.KeptLookup | packages/core/src/audit/chain.ts:32-38 | under every key but those two the hashed document says what the stored one says |
| Chain.SignedRecomputes | packages/core/src/audit/chain.ts:45-69 | after signing, the stored record_hash recomputes from the signed document itself, and only key_id, record_hash and signature changed |
| RecordBuilder.ServesOnlyWhenBothAgree | packages/core/src/audit/record.ts:123-166 | a built record serves if and only if the policy allowed and mediation selected a candidate; the two schema refinements hold of it |
| RecordBuilder.BodyUnattested | packages/core/src/audit/record.ts:161-164 | a built record carries no attestation field |
| BuiltRecords.BuiltRecordSays | packages/core/src/audit/record.ts:128-176 | every input is where the built record says it is, field by field; a serve shows the selected candidate, a suppression gives the reason of the step that refused; no attestation field is set, and prev_hash and key_id are as given |
| BuiltRecords.ContentTextTells | packages/core/src/audit/content-hash.ts:13-36 | the text that is hashed changes with any of the six content fields and with nothing else |
| BuiltRecords.ContentHashBinds | packages/core/src/audit/content-hash.ts:35-36 | equal content hashes mean equal content, or the two texts at hand collide |
| BuiltRecords.SourceNestedKeys | packages/schemas/src/audit-record.ts:43-73 | the keys written side by side in those objects differ in the source |
| ChainProgress.SigningDecided | packages/core/src/audit/chain.ts:45-69 | a record whose hashed fields are JSON is signed if and only if the key id is well formed and the key is usable |
| ChainProgress.AttestSucceeds | packages/core/src/audit/attest.ts:79-124 | attesting succeeds if and only if the document parses, was never attested, comes with a well-formed output hash, time and prev_hash that is not genesis, and the key works; the result is then the original with the five attestation fields set and sealed anew |
| ChainProgress.RefusalsDecided | packages/core/src/audit/attest.ts:85-121 | each refusal is given in exactly one case: the first of those conditions, in order, that fails |
| HeadHistory.SameHashSameDocument | packages/core/src/audit/chain.ts:40-46 | equal record_hash means the same JSON under every key but record_hash and signature, unless the hash inputs of these two documents differ and their digests do not |
| HeadHistory.HeadFixesHistory | packages/core/src/audit/verify-checks.ts:110-148 | two chains that pass record_hash and chain positionally, hide nothing and end in one record_hash are equal record by record up to signatures, or two of their own records, equally far from the head, have different hash inputs with one digest |
| HeadHistory.AnyHeadHasAnotherPast | packages/core/src/audit/verify-checks.ts:116-136 | without that exclusion no head of two or more records fixes anything: another passing chain of another length ends in the same record, behind documents that say pruned: true |
| HeadHistory.MarkerHidesAnyBreak | packages/core/src/audit/verify-checks.ts:116-136 | behind an object with pruned: true and a cutoff, text or not, that String() and Date.parse read as old enough, the chain check passes whatever that object's record_hash is |
| HeadHistory.ChainPinsPredecessor | packages/core/src/audit/verify-checks.ts:125-148 | a passing chain check of a valid record pins the predecessor's record_hash to prev_hash if and only if that object is not a marker whose cutoff, once made a string, is a readable date |
| Verify.RecursionEnds | packages/core/src/audit/verify-supersedes.ts:81-94 | whatever is verified recursively supersedes nothing, so verification cannot recurse again, however contexts are nested or cyclic |
| VerifyLaws.OneLevelIsEnough | packages/core/src/audit/verify.ts:77-96 | for any record and any heap of contexts the verdict equals one computed with a single level of recursion |
| VerifyLaws.VerdictDecided | packages/core/src/audit/verify.ts:77-112 | a verdict is valid if and only if the document parses, all of those stand, and what it supersedes settles well |
| VerifyLaws.ValidMeans | packages/core/src/audit/verify.ts:83-95 | a valid verdict implies a parsed record, seven passed own checks and a settled supersedes check |
| VerifyResponses.EightChecks | packages/core/src/audit/verify.ts:59-96 | every response has the eight names in their order and is valid when all are ok; a document that does not parse fails all, seven as skipped; otherwise each flag is ok if and only if what its name says is so of the record and what surrounds it |
| VerifyResponses.DetailsAreTrue | packages/core/src/audit/verify-checks.ts:110-223 | whatever detail is reported is so, and the detail alone tells whether the check passed |
| VerifyResponses.SupersedesDecided | packages/core/src/audit/verify-supersedes.ts:59-104 | the supersedes check settles well if and only if nothing is superseded, or an original of the same hash, id, app and attested body is, which stands under its own surroundings with the creative hash inherited, unless that was not asked |
| VerifyResponses.FailuresListed | packages/core/src/audit/verify-supersedes.ts:96-103 | an invalid original is reported with exactly the names of the checks it fails, in their order |
| VerifyLaws.ValidAttestationIsFaithful | packages/core/src/audit/verify-supersedes.ts:59-104 | a valid record with supersedes_hash set is fully attested, and its original shares id and app, equals it outside the eight attestation fields, supersedes nothing and is itself valid |
| VerifyLaws.CanonicalIsReadable | packages/core/src/audit/verify-supersedes.ts:35-39 | equal attested bodies mean equal fields, because the canonical text can be read back |
| ChainSteps.AppendKeeps | packages/gateway/src/evaluate/audit-store.ts:80-114 | an append step keeps the invariant of the log: sealed and linked records, ordered versions |
| ChainSteps.AttestKeeps | packages/gateway/src/attest/store.ts:62-102 | attesting the latest version of an id, or being refused, keeps the invariant of the log |
| ChainProgress.LatestIsAttested | packages/gateway/src/attest/store.ts:62-102 | an attest step on the latest version of an id, never attested, with good arguments and a working key appends exactly one row, the attestation of that record chained to the last row, and flips is_latest, unless its hash is already in the log |
| ChainProgress.OtherwiseUnchanged | packages/gateway/src/attest/store.ts:62-85 | in every other case the attest step leaves the log as it was |
| ChainProgress.InputIsAppended | packages/gateway/src/evaluate/audit-store.ts:80-114 | an append step of a good input with a fresh id and a working key appends exactly one row, built from that input and chained to the last row, unless its hash is already in the log |
| ChainProgress.AttestingSettles | packages/core/src/audit/verify.ts:77-96 | so a serve that failed separation_attested passes every check once it has been attested |
| ChainSteps.EveryRunIsIntact | packages/core/src/audit/attest.ts:79-124 | every state reached by any interleaving of append and attest steps under rotating keys satisfies the invariant |
| ChainRuns.OneAttestationPerId | packages/gateway/src/attest/store.ts:65-72 | a second version of an id is always the attestation of an original, so no id is attested twice |
| ChainRuns.VersionedAppend | packages/gateway/src/evaluate/audit-store.ts:90-105 | inserting a fresh record keeps every version paired with its original and its attestation |
| ChainRuns.VersionedAttest | packages/gateway/src/attest/store.ts:78-99 | flipping is_latest and inserting the attestation keeps the versions paired |
| ChainVerdicts.OwnChecksPass | packages/gateway/src/audit-api/verify-context.ts:52-76 | wherever its chain check passes, a row of an intact log passes six of its own checks, and the seventh is its separation |
| ChainVerdicts.SupersedesPasses | packages/gateway/src/audit-api/verify-context.ts:79-94 | the supersedes check passes on every row of an intact log, originals and attestations alike |
| ChainVerdicts.EveryRowVerifies | packages/core/src/audit/verify.ts:77-96 | every row of an intact log passes all eight checks, except a never-attested serve, which fails exactly separation_attested |
| ChainVerdicts.EveryRunVerifies | packages/core/src/audit/verify.ts:77-96 | the same of every row of every reachable log, for inputs with typed fields, a label that is not blank and a creative the catalog holds as selected |
| SourceInputs.SourceInputIsGood | packages/core/src/audit/record.ts:128-166 | those caller facts are all an input needs: the creative and disclosure blocks the builder writes fit the schema and pass both content checks |
| ChainSteps.CreativePasses | packages/core/src/audit/record.ts:110-115 | the creative check passes on what is built from a candidate the catalog holds with the content it was selected with |
| ChainSteps.DisclosurePasses | packages/core/src/audit/record.ts:160 | the disclosure check passes on what is built from a policy whose label is not blank |
| ChainVerdicts.PruningKeepsChain | packages/core/src/audit/verify-checks.ts:116-136 | after any prefix is deleted later survivors keep their chain verdict, and the first is rescued by the marker if and only if it is not dated before the cutoff |
| ChainVerdicts.RetentionKeepsChain | packages/gateway/src/retention/queries.ts:51-77 | the prefix the retention job chooses never costs a survivor its chain verdict |
| ChainRetention.SurvivorsVerify | packages/core/src/audit/verify-supersedes.ts:59-79 | after a prefix is deleted every survivor gets the whole verdict it had, except an attestation whose original was deleted, which fails exactly supersedes |
| ChainRetention.RetentionCosts | packages/gateway/src/retention/queries.ts:51-77 | the same for the prefix the retention job chooses |
| ChainRetention.OriginalLeftIsFound | packages/gateway/src/audit-api/verify-context.ts:79-94 | the original of a survivor is the row the shortened table finds by its hash, if it is left |
| PrunedStore.PrefixChosen | packages/gateway/src/retention/queries.ts:51-77 | the job deletes exactly the rows in front of the first one whose time is not before the cutoff |
| PrunedStore.PrunedContextRead | packages/gateway/src/audit-api/verify-context.ts:52-95 | the context read from what retention left in the table and from its watermark is the context of the survivor, whichever version of an id it is |
| PrunedStore.WholeContextRead | packages/gateway/src/audit-api/verify-context.ts:52-95 | with nothing deleted it is the context of the log, whatever the watermark says |
| PrunedStore.UncoveredGapFails | packages/gateway/src/audit-api/verify-context.ts:41-65 | a gap above the watermark is no retention: the first survivor fails its chain check as having no predecessor |
| ReportBundle.SupportingOf | packages/dashboard/lib/report-generate.ts:84-111 | collects exactly the positional predecessor, the superseded version and that version's predecessor, in that order |
| ReportBundle.SupportingEntries | packages/dashboard/lib/report-bundle.ts:165-200 | the Map loop leaves one entry a hash, skips reported ones and reduces predecessor-only entries |
| ReportBundle.UniqueRecords | packages/dashboard/lib/report-bundle.ts:156-163 | reported records de-duplicated by hash |
| ReportBundle.BuildReportBundle | packages/dashboard/lib/report-bundle.ts:202-219 | the bundle of the reported rows and everything collected for them |
| ReportBundle.IndexBundle | packages/dashboard/lib/report-bundle.ts:233-246 | the index answers position, hash and id lookups as the entry list does |
| ReportBundle.IndexCreatives | packages/dashboard/lib/report-bundle.ts:242-244 | the recomputed content hash of every creative in the bundle, by id |
| ReportBundle.PredecessorOf | packages/dashboard/lib/report-bundle.ts:253-259 | the entry at the position before, or null |
| ReportBundle.BundleVerifyContext | packages/dashboard/lib/report-bundle.ts:267-303 | the context assembled field by field is the one the entry list determines |
| ReportBundleLaws.CollectedMeans | packages/dashboard/lib/report-bundle.ts:171-186 | an entry is carried in full if and only if some reported record supersedes it |
| ReportBundleLaws.ReferenceIsEnough | packages/dashboard/lib/report-bundle.ts:81-91 | the chain check tells a predecessor from its two-field reference if and only if the document reads as a retention marker and the record does not open its chain |
| ReportBundleLaws.OnlyOwnDocumentsInFull | packages/dashboard/lib/report-bundle.ts:165-200 | every full document in a bundle is a reported record or the version one supersedes; all others are two fields |
| ReportBundleLaws.ReportedInFull | packages/dashboard/lib/report-bundle.ts:202-213 | every reported record is in the bundle with every column as stored |
| ReportBundleLaws.OlderVersionWhole | packages/dashboard/lib/report-bundle.ts:281-289 | the version a reported record supersedes is found in the bundle by its hash, whole |
| ReportBundleLaws.ContextsRebuilt | packages/dashboard/lib/report-bundle.ts:248-311 | the rebuilt context differs from the one of the database in predecessors only, and the store alone decides which those are |
| ReportBundleLaws.ResponsesDecided | packages/core/src/audit/verify.ts:77-96 | contexts that differ in predecessors only give the same response if and only if the chain check answers the same and, where an older version is looked into, its chain check turns out the same |
| ReportBundleLaws.RedactionDecided | packages/dashboard/lib/report-bundle.ts:171-311 | a reported record gets the same whole response offline as from the database if and only if its predecessor was neither pruned nor a cut-down lookalike of a marker (unless it opens its chain), and the older version it is checked against has the same chain verdict in both |
| ReportBundleLaws.RedactionPreservesVerdicts | packages/dashboard/lib/report-bundle.ts:171-311 | so with no pruned neighbour, and no document standing before it that says pruned: true, each reported record gets the same response, check by check |
| ReportBundleLaws.PrunedNeighbourIsLost | packages/dashboard/lib/report-bundle.ts:253-259 | with a pruned predecessor the response is always another one offline |
| ReportBundleLaws.LookalikeIsLost | packages/dashboard/lib/report-bundle.ts:81-91 | and so it is behind a stored document that says pruned: true and is cut down to two fields |
| ReportChain.SameContext | packages/gateway/src/audit-api/verify-context.ts:68-95 | the context read from the table is the context of the log it stores |
| ReportChain.ReachableReportsReverify | packages/dashboard/lib/report-bundle.ts:305-311 | after any run of commands every reported record passes all eight checks offline, but for a never-attested serve |
| SchemaLinker.IndexBodies | packages/sdk-python/scripts/generate_models.py:137-139 | a body keeps the first definition it was seen under |
| SchemaLinker.RewriteNode | packages/sdk-python/scripts/generate_models.py:142-168 | the recursive rewriting of any node but a root |
| SchemaLinker.RewriteDict | packages/sdk-python/scripts/generate_models.py:153-168 | the loop that fills the rewritten dict and qualifies colliding titles |
| SchemaLinker.RewriteProperties | packages/sdk-python/scripts/generate_models.py:155-156 | the values of properties are rewritten, the map itself is not |
| SchemaLinker.LinkDefs | packages/sdk-python/scripts/generate_models.py:135-170 | one linking pass over all definitions |
| SchemaLinker.Walk | packages/sdk-python/scripts/generate_models.py:177-188 | collects every occurrence of every title no definition has, and nothing else |
| SchemaLinker.HoistTitles | packages/sdk-python/scripts/generate_models.py:173-196 | hoists exactly the new titles whose every occurrence has one body |
| SchemaLinker.BuildCombined | packages/sdk-python/scripts/generate_models.py:199-208 | link, hoist, link again |
| SchemaLinkerPlaces.BodiesAgree | packages/sdk-python/scripts/generate_models.py:120-122 | two schemas have one body if and only if they agree under every key but description |
| SchemaLinkerPlaces.FirstIsIndexed | packages/sdk-python/scripts/generate_models.py:137-139 | the index knows a body exactly by the first definition, in document order, that has it |
| SchemaLinkerPlaces.RepeatsAreLinked | packages/sdk-python/scripts/generate_models.py:142-168 | below a root, wherever nothing above was replaced, a subschema with the body of a definition becomes a reference to the first such definition, if that is not the owner, its description kept; any other keeps its keys, but for a title |
| SchemaLinkerPlaces.HoistedAreLinked | packages/sdk-python/scripts/generate_models.py:173-202 | in the combined document every occurrence of a hoisted title, outside the definition it is found first in, is a reference to that definition |
| SchemaLinkerTitles.TakenNamesAreQualified | packages/sdk-python/scripts/generate_models.py:159-167 | a subschema that stays and goes by the name of another definition, by its title or after its property, is titled with the name of its owner in front; one whose name is free keeps its title or its lack of one |
| SchemaLinkerTitles.ClashesThatStay | packages/sdk-python/scripts/generate_models.py:159-167 | a pass leaves a subschema under the name of another definition if and only if its name was taken and its owner followed by it is taken as well |
| SchemaLinkerTitles.ContractNameCanClash | packages/sdk-python/scripts/generate_models.py:159-202 | four definitions whose combined document, whatever is hoisted, holds a subschema titled like a definition it is not |
| SchemaLinkerTitles.ClassNameIsCamelCase | packages/sdk-python/scripts/generate_models.py:125-127 | the name of an untitled property is its parts between underscores, each with its first letter raised |
| SchemaLinkerLaws.ReferenceStays | packages/sdk-python/scripts/generate_models.py:147-152 | a reference already there survives a further pass unchanged |
| SchemaLinkerLaws.BodiesMeanTheSame | packages/sdk-python/scripts/generate_models.py:120-122 | two schemas that differ in their own description mean the same |
| SchemaLinkerLaws.Preserved | packages/sdk-python/scripts/generate_models.py:142-168 | one pass keeps the meaning of every subschema, references followed |
| SchemaLinkerLaws.LinkProper | packages/sdk-python/scripts/generate_models.py:135-170 | a pass yields well-formed definitions whose references all name a definition, none of them a bare reference |
| SchemaLinkerLaws.LinkingPreservesMeaning | packages/sdk-python/scripts/generate_models.py:199-208 | following every reference of the combined document ends within the depth of the exported schema and gives that schema back up to titles and descriptions |
| SchemaLinkerLaws.HoistingPreservesMeaning | packages/sdk-python/scripts/generate_models.py:190-202 | a hoisted definition means what its occurrence meant where it stood, and its references all resolve |
| LruCaches.LruCache.constructor | packages/core/src/classify/cache.ts:65-75 | an empty cache of a positive size and lifetime |
| LruCaches.LruCache.Get | packages/core/src/classify/cache.ts:81-93 | a hit moves to the end, an expired entry goes, a miss changes nothing |
| LruCaches.LruCache.Set | packages/core/src/classify/cache.ts:94-108 | replaces the key, then evicts from the front down to the limit, the entry just stored staying last; a non-positive or NaN lifetime only deletes |
| LruCaches.LruCache.Delete | packages/core/src/classify/cache.ts:109-111 | removes the key and says whether it was there |
| LruCaches.LruCache.Clear | packages/core/src/classify/cache.ts:112-114 | empties the cache |
| LruCaches.LruCache.Size | packages/core/src/classify/cache.ts:78-80 | never more than maxEntries |
| LruCaches.OneMoreIncludes | packages/core/src/classify/cache.ts:60-116 | after any trace a cache of N + 1 entries holds those of one of N in the same order and at most one more |
| LruCaches.LargerHitsMore | packages/core/src/classify/cache.ts:81-108 | a larger cache hits, with the same value, whenever a smaller one does |
| LruCaches.HitsAreFresh | packages/core/src/classify/cache.ts:81-108 | a hit is the value last stored under the key, unexpired, with nothing deleting or replacing it since |
| LruCaches.RunValid | packages/core/src/classify/cache.ts:101-107 | keys stay distinct and the size within the limit over every trace |
| LruRecency.JustStored | packages/core/src/classify/cache.ts:94-108 | what was just stored is the last entry, and a get before it expires hits it |
| LruRecency.SurvivorsAreRecent | packages/core/src/classify/cache.ts:81-108 | over every trace the entries stand in the order in which they were last stored or hit, whatever was used and is gone was used before all of them, and at least maxEntries keys have been used since |
| LruRecency.LastUseMeans | packages/core/src/classify/cache.ts:81-108 | the last use of a key is the last operation of the trace that stored or hit it, with nothing naming it since |
| Classifier.CacheIsFaithful | packages/core/src/classify/classify.ts:134-173 | over any interleaving every outcome from the cache repeats, up to method, the latest merged or short-circuited outcome of its key, unexpired |
| Classifier.StepKeeps | packages/core/src/classify/classify.ts:139-170 | whatever is cached was the last outcome worth storing of its key; a fallback never is |
| ClassifierOutcomes.FailureLeavesCache | packages/core/src/classify/classify.ts:156-173 | an LLM that fails or throws leaves the cache exactly as it was, and the rules the request came with answer as a fallback |
| ClassifierOutcomes.MergedIsKept | packages/core/src/classify/classify.ts:164-170 | a merged answer leaves as it is and is what the next request of its key in time gets |
| ClassifierOutcomes.LiveAnswers | packages/core/src/classify/classify.ts:139-142 | an unexpired entry answers, marked as cached and otherwise as stored, and the cache keeps what it held |
| ClassifierOutcomes.StrongAnswers | packages/core/src/classify/classify.ts:144-148 | on a miss strong flags answer by the rules at once, and the next request of the key in time gets that answer |
| ClassifierOutcomes.MissAnswers | packages/core/src/classify/classify.ts:150-158 | any other miss stores nothing: blank text and a missing LLM fall back to the rules, everything else waits for the LLM |
| ClassifierOutcomes.BrokenAnswers | packages/core/src/classify/classify.ts:99-173 | a stage that threw answers with the rules, or the closed answer if it got no further, and does not touch the cache |
| ClassifierOutcomes.AnsweredOnce | packages/core/src/classify/classify.ts:111-174 | over any interleaving every request that has begun was answered once or waits for the LLM |
| ClassifierOutcomes.FallbacksAreRules | packages/core/src/classify/classify.ts:99-174 | over any interleaving every fallback is the rules answer of a request of its key |
| ClassifierHeap.Clone | packages/core/src/classify/classify.ts:40-44 | a new object with new arrays that says the same |
| ClassifierHeap.ClassifierState.LookUp | packages/core/src/classify/classify.ts:139-142 | a hit leaves as a fresh object marked cached |
| ClassifierHeap.ClassifierState.Store | packages/core/src/classify/classify.ts:144-147 | what is cached shares no object with what the caller keeps |
| ClassifierHeap.ClassifierState.BeginRequest | packages/core/src/classify/classify.ts:134-155 | the part before the LLM answers: state, outcome and freshness of what leaves |
| ClassifierHeap.ClassifierState.SettleRequest | packages/core/src/classify/classify.ts:156-173 | the part after it: merged answers are cached, failures never |
| ClassifierHeap.ClassifierState.Tamper | packages/core/src/classify/classify.ts:40-44 | a caller rewriting any returned classification changes nothing the cache says |
| RateLimiter.Limiter.Check | packages/dashboard/lib/rate-limit.ts:77-101 | decision and new map of one attempt |
| RateLimiter.Limiter.Prune | packages/dashboard/lib/rate-limit.ts:50-56 | drops exactly the elapsed windows |
| RateLimiter.Limiter.EvictOldest | packages/dashboard/lib/rate-limit.ts:68-75 | drops the oldest windows, first inserted first among equals |
| RateLimiter.Limiter.Size | packages/dashboard/lib/rate-limit.ts:103 | never more than max(1, maxKeys) |
| RateLimiter.PrunedMeans | packages/dashboard/lib/rate-limit.ts:50-56 | what is left after pruning is what had not elapsed |
| RateLimiter.EvictedMeans | packages/dashboard/lib/rate-limit.ts:58-75 | eviction drops as many as asked and keeps no window older than one it drops |
| RateLimiter.NextValid | packages/dashboard/lib/rate-limit.ts:78-92 | whatever keys arrive, distinct keys and the bound of the map survive |
| RateLimiterLaws.LimitPerWindow | packages/dashboard/lib/rate-limit.ts:86-98 | with at most maxKeys keys and a clock that does not run back, one window allows a key at most its limit, exactly as many as tried up to it |
| RateLimiterLaws.TwiceTheLimit | packages/dashboard/lib/rate-limit.ts:86-98 | and any half-open stretch one window long at most twice the limit |
| RateLimiterLaws.WaitingIsEnough | packages/dashboard/lib/rate-limit.ts:94-100 | a refused key that waits the seconds it was told is allowed at its next attempt, whatever other keys or the clock do meanwhile |
| RateLimiterAnswers.AnswerMeans | packages/dashboard/lib/rate-limit.ts:86-100 | said of the attempts alone: allowed if and only if the key has not tried more often than its limit since the last attempt that opened a window, remaining is the rest of the limit, and retryAfterS the seconds to the end of that window, rounded up |
| RateLimiterAnswers.RetryWithinWindow | packages/dashboard/lib/rate-limit.ts:94-100 | with a clock that does not run back no refusal asks for more than a window, rounded up |
| RateLimiterAnswers.WaitingLessIsNot | packages/dashboard/lib/rate-limit.ts:94-100 | a whole second less than what was told, and the key is refused again |
| RateLimiterLaws.EvictionForgets | packages/dashboard/lib/rate-limit.ts:58-67 | for any policy, with one distinct key more than the map has room for, keys that take turns at one instant are allowed every time: the bound on keys cannot be dropped |
| RateLimiter.Limiter.Reset | packages/dashboard/lib/rate-limit.ts:102 | forgets every window |
| AuditPagingLaws.SlicesAreOneSort | packages/dashboard/lib/audit-queries.ts:97-149 | the per-app lateral form returns what one global sort would |
| AuditPagingLaws.PicksIsOrder | packages/dashboard/lib/audit-queries.ts:81-92 | the range and tie-break conditions are the strict order on (ts, record_hash) |
| AuditPagingLaws.ResultIsSought | packages/dashboard/lib/audit-queries.ts:67-149 | the search result is exactly the stored rows of known apps that are in the scope and the asked app, with a ts from since on and before until and the asked verdict and reason, newest first |
| AuditPagingLaws.ListedPageMeans | packages/dashboard/lib/audit-queries.ts:97-191 | every listed page, whatever the cursor, holds only such rows beyond the cursor, in order, and leaves out one of them only if it is full and that row lies behind all it shows |
| AuditPagingLaws.ForwardPage | packages/dashboard/lib/audit-queries.ts:163-191 | a forward page shows the next pageSize rows of the search result with the right links |
| AuditPagingLaws.BackwardPage | packages/dashboard/lib/audit-queries.ts:176-190 | a backward page shows the pageSize rows before, in the same order, with the right links |
| AuditPagingLaws.BackUndoesForward | packages/dashboard/lib/audit-queries.ts:176-190 | newer from the next page is the page itself, rows and links |
| AuditPagingLaws.WalkShowsResult | packages/dashboard/lib/audit-queries.ts:159-191 | on a fixed log following older ends and has shown the sorted, filtered log |
| AuditPagingLaws.FixedLog | packages/dashboard/lib/audit-queries.ts:97-191 | both laws for the pages listAuditPage returns |
| AuditPagingLaws.PagingNeitherRepeatsNorSkips | packages/dashboard/lib/audit-filters.ts:109-116 | whatever is written between fetches, rows come strictly older and older, and at the end every matching record present from the start was shown |
| AuditPagingLaws.LinksRoundTrip | packages/dashboard/lib/audit-filters.ts:123-158 | a cursor written into a link is parsed back, in either direction |
| ClientAddress.ParseIpv4 | packages/dashboard/lib/client-address.ts:38-56 | the loop over four groups fills the bytes of a dotted quad or fails |
| ClientAddress.Ipv6SectionBytes | packages/dashboard/lib/client-address.ts:58-83 | the loop over groups pushes two bytes a group, four for a last dotted quad |
| ClientAddress.ParseIpv6 | packages/dashboard/lib/client-address.ts:85-108 | both halves around at most one double colon, the gap filled with zeros |
| ClientAddress.ParseIpAddress | packages/dashboard/lib/client-address.ts:117-139 | brackets, ports and mapped addresses folded |
| ClientAddressLaws.Ipv4Inverse | packages/dashboard/lib/client-address.ts:38-56 | exactly the dotted quads are read, each to its bytes |
| ClientAddressLaws.Ipv6Inverse | packages/dashboard/lib/client-address.ts:58-108 | a text is read to given bytes if and only if it spells them, groups with any leading zeros and case, any legal gap |
| ClientAddressLaws.RfcFormsRead | packages/dashboard/lib/client-address.ts:85-108 | the forms of section 2.2 of RFC 4291 are exactly the texts read that have no quad before the double colon, no padded number in a quad and no scope id |
| ClientAddressLaws.ScopeIsIgnored | packages/dashboard/lib/client-address.ts:86-87 | whatever scope id follows, the address in front of it is read |
| ClientAddressLaws.QuadBeforeGapAccepted | packages/dashboard/lib/client-address.ts:67-78 | d.d.d.d:: is read although RFC 4291 has no such form |
| ClientAddressLaws.MappedIsIpv4 | packages/dashboard/lib/client-address.ts:110-139 | a mapped address in any of its forms is the address of its dotted quad |
| ClientAddressLaws.MappedTextRead | packages/dashboard/lib/client-address.ts:110-121 | ::ffff:d.d.d.d is such a form for every quad |
| ClientAddressLaws.TwoFamilies | packages/dashboard/lib/client-address.ts:117-139 | an address is four bytes, or sixteen that are not mapped |
| AddressForms.AddressIsRead | packages/dashboard/lib/client-address.ts:110-139 | a text is read to given bytes if and only if, blanks around it ignored, it is such an address by itself, between brackets or, with a port, four groups of digits; an IPv6 address that maps an IPv4 one is read as that |
| AddressForms.RulesAreWritten | packages/dashboard/lib/client-address.ts:154-172 | an entry is a given rule if and only if it is an address, all of whose bits count, or one with a slash and a number of up to three digits that is no more than its bits |
| AddressForms.AllowlistMeans | packages/dashboard/lib/client-address.ts:191-200 | the rules are what the good entries parse to and the invalid ones all others, each list in the order of the entries |
| AddressForms.EntriesAre | packages/dashboard/lib/client-address.ts:184-187 | the entries are the parts between the commas that are not blank, trimmed, in their order |
| AddressRules.ParseClientAllowlist | packages/dashboard/lib/client-address.ts:182-201 | entries become rules or are listed as invalid, in order; blank means no allowlist |
| AddressRules.MatchesRule | packages/dashboard/lib/client-address.ts:203-219 | the byte loop and the shifted mask are true if and only if the first bits agree (section 3.1 of RFC 4632) |
| AddressRules.IsClientAllowed | packages/dashboard/lib/client-address.ts:227-233 | allowed if and only if the address parses and some rule covers it |
| AddressRules.OnlyRulesAllow | packages/dashboard/lib/client-address.ts:178-200 | an invalid entry never lets anyone in |
| AddressRules.LeadingBits | packages/dashboard/lib/client-address.ts:213-218 | two bytes agree above a shift exactly when their leading bits do |
| Stream.Handle.OnChunk | packages/sdk/src/stream.ts:49-55 | a chunk is kept until the first finish or abort |
| Stream.Handle.FinishStream | packages/sdk/src/stream.ts:57-61 | only the first call starts anything; later calls share its result |
| Stream.Handle.AbortStream | packages/sdk/src/stream.ts:69-71 | marks the stream and touches nothing else |
| Stream.Handle.DecisionArrives | packages/sdk/src/stream.ts:26-36 | the first decision is the one used |
| Stream.Handle.ResumeRun | packages/sdk/src/stream.ts:32-44 | run after its await, with attestAnswer up to the request |
| Stream.Handle.AttestReplies | packages/sdk/src/generation.ts:66-84 | the reply settles the result, once |
| Stream.AttestedExactlyWhenDue | packages/sdk/src/stream.ts:21-73 | over every interleaving an attestation is sent if and only if finish and a decision with an audit id preceded a resume before any abort; its text is the chunks before the first finish, and rendered is what the caller fixed or answered, or else whether the decision was to serve; at most one is sent |
| Stream.AtMostOneAttestation | packages/sdk/src/stream.ts:57-61 | at most one, and none before run goes on |
| Stream.ReplyIsTheFirst | packages/sdk/src/generation.ts:66-84 | finish resolves with what the first reply behind the attestation said, if one was due, and with null otherwise |
| Stream.TextIsWhatWasHeard | packages/sdk/src/stream.ts:30-55 | the text is every chunk heard before the first finish or abort, and no other |
| ReportReader.MapLimited | packages/dashboard/lib/report-reader.ts:44-61 | for every choice of the next worker the result is the sequential map in input order |
| ReportReader.EveryScheduleSound | packages/dashboard/lib/report-reader.ts:49-60 | at every moment of every schedule: items started once and in order, at most limit in flight, finished ones hold their own result |
| ReportReader.StepsEnd | packages/dashboard/lib/report-reader.ts:52-58 | every step brings the end nearer, so every schedule ends |
| ReportReader.FinishedIsMap | packages/dashboard/lib/report-reader.ts:59-60 | when all workers are through, each item was worked exactly once and the results are the map |
| ReportReader.Memo.LookUp | packages/dashboard/lib/report-reader.ts:23-31 | answers as the reader does and loads no key twice |
| ReportReader.PositionKeyTellsApart | packages/dashboard/lib/report-reader.ts:36-37 | no two positions share a key, whatever the app is called |
| Report.ByApp | packages/dashboard/lib/report.ts:124-141 | one row an app with its true counts |
| Report.RankedApps | packages/dashboard/lib/report.ts:142-148 | those rows, each once, most impressions first, then records, then name |
| Report.AppsSumToTotals | packages/dashboard/lib/report.ts:124-232 | per-app records, serves, impressions and clicks sum to the totals |
| Report.CountTags | packages/dashboard/lib/report.ts:87-89 | a count for every tag that occurs, and the true one |
| Report.Rank | packages/dashboard/lib/report.ts:81-85 | the counts, each once, most frequent first |
| Report.CategoryDistribution | packages/dashboard/lib/report.ts:150-172 | readable records counted, categories ranked by how many records carry them |
| Report.SensitiveExposures | packages/dashboard/lib/report.ts:174-192 | exposed records counted; healthy if and only if none is |
| Report.ChainIntegrity | packages/dashboard/lib/report.ts:194-219 | verified plus failed is total, listed plus omitted is failed, and the failed check names are exactly those some record fails, in the order of the checks |
| Report.StatusMeans | packages/dashboard/lib/report.ts:114-122 | empty, all, none and partial say exactly what they say of the records |
| Report.FailedChecksMeans | packages/dashboard/lib/report.ts:108-112 | a record fails exactly the integrity checks verification failed it on |
| Report.DisclosureAgrees | packages/dashboard/lib/report.ts:93-106 | the disclosure numerator counts exactly the records verification's own check accepts |
| ReportLaws.TotalsCount | packages/dashboard/lib/report.ts:221-232 | serves and unreadable records are counted by the fields of the records, impressions and clicks summed |
| ReportLaws.AppsListed | packages/dashboard/lib/report.ts:124-148 | there is one row for each app of any record |
| ReportLaws.AppRowMeans | packages/dashboard/lib/report.ts:124-141 | a row carries the name on the first record of its app, the number of its records and serves and the sums of its impressions and clicks |
| ReportLaws.AppsInOrder | packages/dashboard/lib/report.ts:142-148 | a row before another has more impressions, or as many and more records, or as many of both and a name not behind |
| ReportLaws.RankingMeans | packages/dashboard/lib/report.ts:81-89 | a ranking lists every tag that stands on a record once, with the number of records it stands on, most first, then by name |
| ReportLaws.CategoryTally | packages/dashboard/lib/report.ts:150-163 | a category is counted once for every readable record that carries it |
| ReportLaws.SensitiveTally | packages/dashboard/lib/report.ts:174-188 | and a sensitive flag likewise |
| ReportLaws.ExposedCounts | packages/dashboard/lib/report.ts:174-192 | exposed is the number of readable records with any sensitive flag |
| ReportLaws.FailuresMean | packages/dashboard/lib/report.ts:194-219 | the failures are the records that fail an integrity check, each once and in their order, with exactly the checks they fail |
| ReportLaws.VerifiedCounts | packages/dashboard/lib/report.ts:194-219 | verified is the number of records that fail none |

## Left out

- Real SHA-256, Ed25519, PEM and key loading: parameters with the laws named above.
- Zod's error messages and the details of nested schemas (classification, surface, policy decisions, demand
  trace): a parameter of the contract that parsing is idempotent on.
- Postgres, its locks and query plans: tables are sets or sequences, queries the filters and orders they state.
- ReportReader.MapLimited: only runs whose work resolves; rejected promises of a worker or of the underlying
  reader are not modelled.
- LruCaches.LruCache.Set: lifetimes are finite numbers or NaN; an entry stored for `Infinity` is not modelled.
- The policy engine, mediation, merging of rules and LLM answers, the rules data: what they answer is an input.
- Environment parsing, cookies, pages, formatting, CSS, HTTP wiring, command line scripts and code generation
  from the combined schema document: input and output only.
- `strip_string_formats`: formats do not touch the meaning proved. Class names are raised letter by letter for
  ASCII only.
- Rates (`ctr`, `share`, compliance rates): quotients of two counts that are proved.
- SchemaLinker.RewriteNode: rewrites every dict alike, so a `default` or `examples` value that repeats a
  definition would become a reference there too, as it does in the code; its meaning is followed all the same.
- SchemaLinker.HoistTitles: which of the occurrences of a hoisted title is kept is left open; in the code it is
  the first in walk order.
- SchemaLinker.BuildCombined: the order of the names in the combined document is a parameter, not the sort.
- ReportBundle.BuildReportBundle: the order `localeCompare` sorts entries in is a parameter; report metadata and
  public keys are not carried.
- ReportBundleLaws.RedactionPreservesVerdicts: is about the latest versions a report is made of, as its query
  selects them, and asks that the stored columns agree with the documents.
- HeadHistory.HeadFixesHistory: speaks of chains in which no document but the last reads as a retention marker,
  for the reason given above.
- ChainSteps.EveryRunIsIntact: an attest step attests the latest version of an id, as the store does; attesting
  one original twice by calling `attest` directly is not modelled.
- AuditPagingLaws.PagingNeitherRepeatsNorSkips: records are inserted between fetches, never deleted; retention
  running meanwhile is not modelled.
- RateLimiter.Limiter.EvictOldest: repeated removal of the first oldest window stands for the stable sort and slice.
- Report.RankedApps: names compare by a number each, which stands for `localeCompare`.
- Stream.Handle.FinishStream: the promise every call shares is the phase of the one handle; abort signals are not modelled.
- ClassifierOutcomes.BrokenAnswers: the rules version in the closed answer is a fixed text; in the code it is a hash of
  the rules data.
- ClassifierHeap.ClassifierState.BeginRequest: keywords and latency of an outcome are not modelled.
