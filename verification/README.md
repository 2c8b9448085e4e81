# Auracles backend: a verified model

This project models the parts of the Auracles backend whose correctness rests on
an argument rather than on a reading, and proves what they promise. Each module
follows one file of the backend.

| module | models |
|---|---|
| `RateLimitMachine`, `RateLimit` | the fixed-window rate limiter: every interleaving of its Redis commands, and one check run alone |
| `Base64Url`, `SignedState`, `Json` | unpadded base64url and the signed, expiring state values built on it |
| `PayoutAccounts` | migration 0118: payout-account uniqueness per owner, and back |
| `KybMigration` | migration 0100: business verification moves to the legal profile, and back |
| `Commission` | migration 0096: the commission snapshot, and back |
| `TeamCapabilities` | migration 0089: organization rights become team rights |
| `Taxonomy`, `Vocabulary` | migration 0082, its remap tables and the taxonomy validator |
| `BusinessDays` | business-day arithmetic |
| `SignatureHeader`, `StripeWebhook`, `PersonaWebhook` | webhook signature headers |
| `Amounts` | decimal amounts to minor units |
| `ProfileImages` | recovering an object key from its public URL |
| `Schedules` | the config-backed schedule cache |
| `Text`, `Wrappers` | what the others share: split, join, strip, integer printing and parsing, optional values |

The rate limiter is a step relation: INCR, TTL, EXPIRE and the final decision are
separate steps of any number of callers, mixed with clock ticks, key expiry and
callers that die half way. Migrations, the header parsers, the business-day loop,
the validator and the schedule object are methods that change state or loop, each
proved equal to a specification function or relation about which the lemmas speak.

## Where the code and its promises part

Each of these is proved with its exact condition, and where a promise fails on
tables or values the backend can hold, a lemma gives an input.

* The rate limiter means to tell a rejected caller exactly how long to wait. In
  every interleaving, with nobody else touching the key meanwhile, the caller is
  admitted after that wait exactly when the key, at the rejection, had an expiry or
  was not full. It fails when a check outlives the key it was counted in, meets the
  next one before that has an expiry, and the caller who should set it dies
  (`RateLimitMachine.RetryAfterInEveryRun`, `RateLimitMachine.PromisedWaitFallsShort`).
* `read_oauth_state_value` and `read_connector_state_value` promise None for a
  malformed value, but raise `TypeError` exactly when the text after the last dot
  is not ASCII (`SignedState.RaisesIffSignatureNotAscii`,
  `SignedState.MalformedValueThatRaises`).
* Stripe's `verify_webhook` compares candidates secret by secret, so a non-ASCII
  `v1` value appended to a good header turns acceptance into `TypeError`, exactly
  when the first secret does not match before it
  (`StripeWebhook.AppendedItems`, `StripeWebhook.AppendedItemRaises`). Appending
  never turns acceptance into refusal.
* Migration 0118's restored constraint always applies when hashes are digests or a
  row's own placeholder. On arbitrary hashes it applies exactly when no row that
  keeps its pair holds the placeholder of a row being retired
  (`PayoutAccounts.DowngradeSucceedsIff`).
* Migration 0096's downgrade is announced as faithful; it restores the table
  exactly when no earning row was stamped before the upgrade
  (`Commission.DowngradeRestoresIff`, `Commission.SettledSaleLosesStamp`).
* Migration 0100 says a verified application promotes to a verified profile; a
  verdict on an application without a legal name is lost
  (`KybMigration.VerifiedIff`, `KybMigration.UnnamedVerdictIsLost`). The status the
  INSERT computes never shows, because the UPDATE overwrites it
  (`KybMigration.UpdateDecides`).
* Migration 0100 also says the step is reversible. It gives the applications back
  exactly when those of each organization with a named one are all alike and agree
  with its profile, and those of the others say just what the bare profile does; an
  organization that applied twice with different columns does not qualify
  (`KybMigration.RestoredIff`, `KybMigration.ReapplicationIsOverwritten`).
* `to_minor_units` tests for two decimals after the product has been rounded to 28
  digits, so an amount with more decimals can be accepted
  (`Amounts.AcceptedIsExactIff`, `Amounts.TraceIsRoundedAway`).
* The schedule pickles a reading of the monotonic clock as its expiry. After a
  restart of that clock the pickled cadence stays, whatever the configuration says,
  until the new clock reaches that reading; from then on staleness is bounded again
  (`Schedules.StaleUntilOldExpiry`, `Schedules.RestoredScheduleMissesChange`).
* `profile_image_key` inverts `public_object_url` in path style exactly when no
  segment of the endpoint's own path or of the bucket's name is a profile namespace
  (`ProfileImages.PathStyleRoundTripIff`); without such a path, exactly when the
  bucket is not named like one (`ProfileImages.BucketAlone`). A bucket named
  `avatars` is taken for the start of the key (`ProfileImages.BucketTakenForKey`).

## Model

| member | source | states |
|---|---|---|
| RateLimitMachine.AtMostLimitPerLifetime | backend/app/core/rate_limit.py:58-67 | In every interleaving of any number of checks, with deaths, ticks and expiry, one lifetime of the key admits at most `limit` calls, and a finished call was admitted exactly when its count was at most `limit`. |
| RateLimitMachine.AtMostTwiceLimitPerWindow | backend/app/core/rate_limit.py:60-67 | In every interleaving, any half-open interval of length `window` holds the INCRs of at most `2 * limit` admitted calls. |
| RateLimitMachine.CompletedCheckLeavesExpiry | backend/app/core/rate_limit.py:63-65 | Once a caller of this lifetime is past the repair, the key expires within a window; while it has no expiry, nobody of this lifetime is past it. |
| RateLimitMachine.LockoutEndsByHorizon | backend/app/core/rate_limit.py:63-65 | A lifetime that has an expiry is over, whatever anyone does, by the expiry plus one window for each caller about to issue EXPIRE; with none, the expiry never moves. |
| RateLimitMachine.NextKeepsInv | backend/app/core/rate_limit.py:58-79 | Every step keeps the invariant: lifetimes start a window apart, counts in one lifetime are distinct, verdicts agree with counts, waits lie in 1..window. |
| RateLimitMachine.SoloRunIsCheck | backend/app/core/rate_limit.py:58-79 | The undisturbed command sequence is a run of the step relation with the sequential counter and verdict. |
| RateLimitMachine.RetryAfterInEveryRun | backend/app/core/rate_limit.py:67-79 | In every run every rejection carries a wait in 1..window, and a caller who comes back d seconds later to a key nobody touched is admitted if and only if the key was not full at the rejection or had an expiry and d is at least the promised wait. |
| RateLimitMachine.PromisedWaitFallsShort | backend/app/core/rate_limit.py:70-73 | A run in which a caller told to wait ten seconds would be rejected again after them, with nobody else about. |
| RateLimitMachine.RetryAfterIsExact | backend/app/core/rate_limit.py:67-79 | For a check nobody interleaves with, the wait lies in 1..window and is the least after which a caller alone with the key is admitted. |
| RateLimitMachine.EveryKeyIsAStart | backend/app/core/rate_limit.py:58-67 | The runs spoken of start at any time on any key the limiter can leave, one without an expiry included. |
| RateLimitMachine.DeadTakesNoPart | backend/app/core/rate_limit.py:58-79 | A caller that died stays where it was, whatever the others do. |
| RateLimit.PhraseIsLeastCover | backend/app/core/rate_limit.py:28-33 | The phrase is the least whole number covering the wait, of seconds below a minute and of minutes from there on, singular only for one. |
| RateLimit.AnswerTellsTheWait | backend/app/core/rate_limit.py:67-79 | The answer is a pass exactly while the key is not full; otherwise the header prints a wait w in 1..window, the detail announces it, and a lone check d seconds later passes if and only if w <= d. |
| RateLimit.KeysDoNotCollide | backend/app/core/rate_limit.py:60 | Namespaces without a colon never share a counter. |
| RateLimit.RateLimiter.Check | backend/app/core/rate_limit.py:58-79 | One check passes or raises 429 with phrase and header as the step relation's lone run says, and touches only its own key. |
| Base64Url.DecodeEncode | backend/app/core/cookies.py:70-77 | For every byte string, decoding the re-padded encoding gives the bytes back (sections 3.2 and 5 of RFC 4648). |
| Base64Url.EncodeLength | backend/app/core/cookies.py:70-72 | The stripped form of n bytes has ceil(4n/3) characters. |
| Base64Url.PaddingIsExact | backend/app/core/cookies.py:75-77 | `-len % 4` is exactly the padding that was stripped. |
| Base64Url.EncodeShape | backend/app/core/cookies.py:70-77 | The stripped form has neither `=` nor `.`, and re-padding restores the padded form. |
| Base64Url.EncodeInjective | backend/app/core/cookies.py:70-72 | No two payloads share an encoding. |
| Base64Url.EncodeIsUrlSafe | backend/app/core/cookies.py:70-72 | Every character of an encoding is a letter, a digit, `-` or `_`. |
| Base64Url.DecodePadded | backend/app/core/cookies.py:75-77 | The decoder undoes the padded encoding and ignores whatever follows the padding. |
| Base64Url.ForeignCharacterIsSkipped | backend/app/core/cookies.py:208 | A character outside both alphabets makes no difference to what is decoded. |
| Base64Url.LettersDecodeIff | backend/app/core/cookies.py:208 | Letters alone decode if and only if they complete their last group of four. |
| Base64Url.EarlyPaddingIsSkipped | backend/app/core/cookies.py:208 | `=` before a group has two letters makes no difference. |
| Base64Url.StandardAlphabetReadsTheSame | backend/app/core/cookies.py:208 | `+` and `/` read as `-` and `_`. |
| SignedState.ReadsBackUntilExpiry | backend/app/core/cookies.py:170-216 | Under the same key, reading a created value gives the exact payload up to and including the second `exp`, and None at every later one. |
| SignedState.OAuthRoundTrip | backend/app/core/cookies.py:144-216 | An OAuth value gives every original field back for ten minutes. |
| SignedState.ConnectorRoundTrip | backend/app/core/cookies.py:263-345 | A connector value gives every original field back for ten minutes. |
| SignedState.AcceptedIffSigned | backend/app/core/cookies.py:201-216 | A value is accepted if and only if it is e, a dot and the encoded digest of e under the secret, where e is ASCII and decodes to a JSON object whose integer `exp` is not past. |
| SignedState.ForeignKeyIsRefused | backend/app/core/cookies.py:80-87 | A value made under one key and read, unexpired, under another is accepted if and only if the two keys give its payload the same digest, and None otherwise. |
| SignedState.TruncDropsFraction | backend/app/core/cookies.py:178 | `int()` of a timestamp drops the fraction toward zero. |
| SignedState.RaisesIffSignatureNotAscii | backend/app/core/cookies.py:204-207 | Reading raises if and only if the text after the last dot is not ASCII. |
| SignedState.MalformedValueThatRaises | backend/app/core/cookies.py:186-207 | A concrete malformed value raises instead of giving None. |
| PayoutAccounts.PlaceholdersAreInjective | backend/migrations/versions/2026_09_19_0118_payout_account_owner_scoped_uniqueness.py:86-87 | Placeholders tell ids apart, are `superseded-` and 32 hexadecimal digits, and are never a digest. |
| PayoutAccounts.DigestsAreHex | backend/app/core/security.py:167-176 | A digest is any sixty-four hexadecimal digits. |
| PayoutAccounts.OneHolderPerPair | backend/migrations/versions/2026_09_19_0118_payout_account_owner_scoped_uniqueness.py:74-94 | Each pair keeps exactly one unchanged holder, the oldest live row when one lived and the oldest row otherwise; all other rows of the pair end soft-deleted and not default. |
| PayoutAccounts.DowngradeRestoresUniqueness | backend/migrations/versions/2026_09_19_0118_payout_account_owner_scoped_uniqueness.py:74-101 | After the UPDATE, (provider, hash) is unique over all rows, soft-deleted included. |
| PayoutAccounts.DowngradeSucceedsIff | backend/migrations/versions/2026_09_19_0118_payout_account_owner_scoped_uniqueness.py:74-101 | On any table, the constraint applies if and only if no keeper holds a retired row's placeholder. |
| PayoutAccounts.DowngradeTwiceIsOnce | backend/migrations/versions/2026_09_19_0118_payout_account_owner_scoped_uniqueness.py:61-101 | A second downgrade changes no row. |
| PayoutAccounts.EveryDowngradeSucceeds | backend/migrations/versions/2026_09_19_0118_payout_account_owner_scoped_uniqueness.py:33-101 | After any history of ups, downs, registrations, deletions and erasures the next downgrade succeeds, no row has vanished, and no deleted account is a default if accounts are registered live. |
| PayoutAccounts.BuildUniqueIndex | backend/migrations/versions/2026_09_19_0118_payout_account_owner_scoped_uniqueness.py:45-58 | Entering rows one by one fails exactly when two entries have equal keys. |
| PayoutAccounts.RetireDuplicates | backend/migrations/versions/2026_09_19_0118_payout_account_owner_scoped_uniqueness.py:74-94 | The row-by-row UPDATE, ranked on the table as it was, leaves the retired table. |
| PayoutAccounts.Database.Upgrade | backend/migrations/versions/2026_09_19_0118_payout_account_owner_scoped_uniqueness.py:33-58 | Building the two partial indexes succeeds exactly when live pairs are unique per owner, so always on a table the old constraint accepts; no row changes. |
| PayoutAccounts.Database.Downgrade | backend/migrations/versions/2026_09_19_0118_payout_account_owner_scoped_uniqueness.py:61-101 | Succeeds exactly when no keeper holds a retired row's placeholder, and otherwise changes nothing; no row is lost either way, and one that was live is deleted as of now; on the program's own tables it always succeeds, with one holder left for each pair and (provider, hash) unique. |
| KybMigration.VerifiedIff | backend/migrations/versions/2026_09_09_0100_org_kyb_verification.py:96-163 | An organization ends verified if and only if one of its named applications was. |
| KybMigration.UpdateDecides | backend/migrations/versions/2026_09_09_0100_org_kyb_verification.py:143-163 | Final status, documents and verdict depend on the UPDATE's pick alone; an existing legal name and registration stay. |
| KybMigration.UnnamedVerdictIsLost | backend/migrations/versions/2026_09_09_0100_org_kyb_verification.py:109 | A verified application without a legal name leaves no profile. |
| KybMigration.LatestExists | backend/migrations/versions/2026_09_09_0100_org_kyb_verification.py:100-111 | The pick always exists: one most recently verified, else newest, named application per organization. |
| KybMigration.RestoredIff | backend/migrations/versions/2026_09_09_0100_org_kyb_verification.py:96-222 | Upgrade then downgrade gives the applications back if and only if those of each organization with a named one are all alike and agree with its profile, and those of every other say what its bare profile says. |
| KybMigration.ReapplicationIsOverwritten | backend/migrations/versions/2026_09_09_0100_org_kyb_verification.py:96-111 | Two differing applications of one organization do not both come back. |
| KybMigration.VerdictSurvivesRepeatedRuns | backend/migrations/versions/2026_09_09_0100_org_kyb_verification.py:96-236 | However often the migration has gone up and down, the next upgrade leaves an organization verified if and only if a named application was verified at the start and its profile's name is not empty. |
| KybMigration.OnlyNamedApplicationIsRestored | backend/migrations/versions/2026_09_09_0100_org_kyb_verification.py:179-222 | With one named application and no prior profile, that application is restored. |
| KybMigration.Database.Upgrade | backend/migrations/versions/2026_09_09_0100_org_kyb_verification.py:96-176 | An organization ends verified exactly when a named application was, and has a profile exactly when it had one or named itself, however the two picks break ties; every profile is as the next row says. |
| KybMigration.EveryProfileFits | backend/migrations/versions/2026_09_09_0100_org_kyb_verification.py:100-163 | Verdict and documents are those of the most recently verified, else newest, named application; the status is verified with a verdict, pending with documents and none, unverified with neither; other profiles get an empty review, and existing names and registrations stay. |
| KybMigration.InsertIsStricter | backend/migrations/versions/2026_09_09_0100_org_kyb_verification.py:126-132 | The INSERT's status differs from the UPDATE's exactly for documents without a verdict or a registration number. |
| KybMigration.Database.Downgrade | backend/migrations/versions/2026_09_09_0100_org_kyb_verification.py:179-236 | After any upgrade, the applications come back exactly when they were restorable before it; profiles lose their review and nothing else. |
| Commission.UpgradeKeepsChecks | backend/migrations/versions/2026_08_28_0096_commission_snapshot_backfill.py:55-80 | For rates in 0..1, commission + net = amount on stamped rows, at the nearest cent of the exact share, and the CHECKs hold in both directions. |
| Commission.RoundIsNearest | backend/migrations/versions/2026_08_28_0096_commission_snapshot_backfill.py:59 | Rounding is to the nearest cent, halves away from zero. |
| Commission.StampsByKind | backend/migrations/versions/2026_08_28_0096_commission_snapshot_backfill.py:45-80 | Purchases and milestones are stamped at the commission rate or 0.15, attestation fees at theirs or 0.10, and every other row is left alone, both ways. |
| Commission.UpgradeIsIdempotent | backend/migrations/versions/2026_08_28_0096_commission_snapshot_backfill.py:61-69 | Upgrading twice is upgrading once; at new rates the second changes nothing if and only if every stamp that rounded to zero does so again. |
| Commission.DowngradeRestoresIff | backend/migrations/versions/2026_08_28_0096_commission_snapshot_backfill.py:73-80 | The downgrade restores the table if and only if no earning row was stamped before. |
| Commission.SettledSaleLosesStamp | backend/migrations/versions/2026_08_28_0096_commission_snapshot_backfill.py:18-20 | A sale stamped at settlement loses its snapshot. |
| Commission.MoneyIsConserved | backend/migrations/versions/2026_08_28_0096_commission_snapshot_backfill.py:55-80 | Commission and net add up to the same total over any table, up and down, at any rates. |
| Commission.Database.Upgrade | backend/migrations/versions/2026_08_28_0096_commission_snapshot_backfill.py:55-70 | Two guarded in-place updates stamp each row at the rate of its kind. |
| Commission.Database.Downgrade | backend/migrations/versions/2026_08_28_0096_commission_snapshot_backfill.py:73-80 | One guarded in-place update takes off whatever looks stamped. |
| TeamCapabilities.Database.Upgrade | backend/migrations/versions/2026_07_17_0089_add_org_team_capabilities.py:56-96 | The loop, in any order of organizations, leaves precisely the backfilled tables; each member may use, and is listed with, exactly what their organization had. |
| TeamCapabilities.Database.AllMembersTeam | backend/migrations/versions/2026_07_17_0089_add_org_team_capabilities.py:64-78 | The existing "All members" team is used, or one is created and nothing else changes. |
| TeamCapabilities.OwnTeamGrants | backend/migrations/versions/2026_07_17_0089_add_org_team_capabilities.py:80-96 | Whatever an organization had active, its own team grants it to each of its members. |
| TeamCapabilities.MemberKeepsAccess | backend/app/modules/organizations/dependencies.py:229-264 | After the backfill the request check and the list of grants let a member have a capability if and only if the organization had it before, whatever teams existed. |
| TeamCapabilities.RolesPreserved | backend/app/modules/organizations/service.py:1213-1251 | A user's derived role follows from some membership if and only if one of their organizations had the capability before. |
| TeamCapabilities.ListingIsExact | backend/app/modules/organizations/service.py:278-299 | Whatever a member may use is listed, and nothing else is when their teams are their organization's. |
| TeamCapabilities.ListedButRefused | backend/app/modules/organizations/service.py:280-284 | On consistent tables the list can name a capability the request check refuses. |
| Taxonomy.RemapIsIdempotent | backend/migrations/attestor_taxonomy_remap.py:56-58 | Remapping keeps the length and remapping twice is remapping once. |
| Taxonomy.ReverseRestoresIff | backend/migrations/versions/2026_07_14_0082_unify_attestor_taxonomy.py:35-37 | Reverse after forward is the identity on an array if and only if no element was already a slug of the table. |
| Taxonomy.DowngradeRestoresIff | backend/migrations/versions/2026_07_14_0082_unify_attestor_taxonomy.py:94-105 | Downgrade after upgrade restores the tables if and only if no row held a NULL array or such a slug. |
| Taxonomy.RemapRows | backend/migrations/versions/2026_07_14_0082_unify_attestor_taxonomy.py:40-91 | Every row is rewritten in place, and forward each row with non-canonical jurisdictions is logged. |
| Taxonomy.Upgrade | backend/migrations/versions/2026_07_14_0082_unify_attestor_taxonomy.py:94-98 | Both tables are remapped with their logs. |
| Taxonomy.Downgrade | backend/migrations/versions/2026_07_14_0082_unify_attestor_taxonomy.py:101-105 | Both tables are remapped backwards. |
| Taxonomy.NothingLoggedIff | backend/migrations/versions/2026_07_14_0082_unify_attestor_taxonomy.py:58-64 | A row's log entry is empty if and only if all its remapped jurisdictions are canonical. |
| Taxonomy.Validate | backend/app/shared/taxonomy.py:109-123 | The first trimmed entry not allowed is named, an empty list is refused, and otherwise the de-duplicated entries come back. |
| Taxonomy.DedupeKeepsFirstOccurrences | backend/app/shared/taxonomy.py:117-120 | No value twice, in the order of first occurrence. |
| Taxonomy.UpgradedSectorsValidate | backend/migrations/attestor_taxonomy_remap.py:9-14 | Any non-empty array of legacy or canonical sectors validates after the upgrade, to its remapped de-duplication. |
| Taxonomy.UpgradedFunctionsValidate | backend/migrations/attestor_taxonomy_remap.py:16-26 | The same for functions. |
| Taxonomy.UpgradedJurisdictionsValidate | backend/migrations/attestor_taxonomy_remap.py:28-53 | The same for jurisdictions. |
| BusinessDays.AddBusinessDays | backend/app/shared/business_days.py:19-43 | The day-by-day loop lands on the closed form's day at the same UTC time of day; a negative count is an error. |
| BusinessDays.SameInstant | backend/app/shared/business_days.py:37 | Readings of one instant at any two offsets are one start, and naive readings are UTC. |
| BusinessDays.KnownWeekdays | backend/app/shared/business_days.py:41 | The weekdays of three known dates. |
| BusinessDays.ReadingOfDay | backend/app/shared/business_days.py:37-40 | A reading at any time of a day falls on that day. |
| BusinessDays.LandingIsEarliest | backend/app/shared/business_days.py:19-43 | The result is the only weekday, and the earliest day, with exactly n weekdays after the start up to it. |
| BusinessDays.AddingTwice | backend/app/shared/business_days.py:37-43 | Adding a then b is adding a + b. |
| BusinessDays.LaterForMoreDays | backend/app/shared/business_days.py:37-43 | Strictly increasing in the count. |
| BusinessDays.LaterForLaterStart | backend/app/shared/business_days.py:37-43 | Never earlier for a later start. |
| BusinessDays.LandingWeekday | backend/app/shared/business_days.py:37-43 | From weekday w, the landing weekday is (w + n) mod 5, weekends counting as the Friday before. |
| BusinessDays.WeekendStart | backend/app/shared/business_days.py:37-43 | Saturday and Sunday starts land where the Friday before lands. |
| BusinessDays.AdvanceBounds | backend/app/shared/business_days.py:37-43 | The calendar advance lies between n + 2*((n-1)/5) and n + 2*((n+4)/5), the one reached from every Sunday and the other from every Friday. |
| SignatureHeader.AnyMatches | backend/app/integrations/stripe.py:587 | The in-order comparison matches, misses, or raises at the first candidate outside ASCII. |
| SignatureHeader.ItemWithoutEquals | backend/app/integrations/stripe.py:532-534 | An item without `=` is all key and holds no value. |
| StripeWebhook.ParseSignatureHeader | backend/app/integrations/stripe.py:528-543 | The first `t` as an integer and every `v1`, or the right error. |
| StripeWebhook.MalformedIff | backend/app/integrations/stripe.py:535-542 | A header is malformed exactly for want of a `t` or a `v1` with a value, and its timestamp exactly when the first `t` is no integer. |
| StripeWebhook.SecretAmongBlanks | backend/app/integrations/stripe.py:583 | A secret may have blanks on either side in the comma list. |
| StripeWebhook.BlankEntryIsIgnored | backend/app/integrations/stripe.py:583 | A blank entry in the list is none. |
| StripeWebhook.SearchSecrets | backend/app/integrations/stripe.py:583-589 | The nested loops with the flag find what the search over all secrets and candidates finds. |
| StripeWebhook.VerifyWebhook | backend/app/integrations/stripe.py:558-600 | Every outcome, errors in their order included. |
| StripeWebhook.MatchedIffSomePairAgrees | backend/app/integrations/stripe.py:583-589 | A match means some secret and candidate agree with no raising comparison before them. |
| StripeWebhook.AcceptedIff | backend/app/integrations/stripe.py:558-600 | Accepted if and only if the first `t` is within tolerance, some secret and `v1` agree on it, and the body is a UTF-8 JSON object. |
| StripeWebhook.OneSignatureVerdict | backend/app/integrations/stripe.py:571-600 | The whole outcome for one secret and one signature: which refusal, or acceptance exactly when the signature is the keyed digest of the printed timestamp, a dot and the text. |
| StripeWebhook.ParseMadeHeader | backend/app/integrations/stripe.py:546-555 | The parser inverts the header printer. |
| StripeWebhook.MadeHeaderIsAccepted | backend/app/integrations/stripe.py:546-600 | Every printed header is accepted within tolerance, at any position of the secret in the comma list. |
| StripeWebhook.AppendedItems | backend/app/integrations/stripe.py:528-600 | Appending items never refuses an accepted header, and keeps it accepted under the exact condition stated. |
| StripeWebhook.AppendedItemRaises | backend/app/integrations/stripe.py:585-589 | One appended non-ASCII candidate turns acceptance into an exception. |
| PersonaWebhook.ParseSignatureHeader | backend/app/integrations/persona.py:358-374 | The last `t` and every `v1` in order, or malformed. |
| PersonaWebhook.ParsesAllGroups | backend/app/integrations/persona.py:361-374 | All digests, in order, of any number of space-separated groups sharing one `t`. |
| PersonaWebhook.AcceptedIff | backend/app/integrations/persona.py:399-418 | Accepted if and only if one digest is the keyed digest over the last `t`, no comparison up to it raises, and the body is a JSON object; the age of `t` plays no part. |
| PersonaWebhook.OneSignatureVerdict | backend/app/integrations/persona.py:402-418 | The whole outcome for one signature, over the timestamp as it stands, a dot and the raw body. |
| PersonaWebhook.RotationVerifies | backend/app/integrations/persona.py:403-418 | A header with digests of several secrets verifies under each of them. |
| PersonaWebhook.VerifyWebhook | backend/app/integrations/persona.py:377-418 | Every outcome, errors in their order included. |
| Amounts.SucceedsIff | backend/app/integrations/amounts.py:14-28 | Within the context, conversion gives m if and only if the currency is supported and the amount is m hundredths, m positive. |
| Amounts.RefusedIff | backend/app/integrations/amounts.py:16-28 | Within the context, which of the three refusals it is, each exactly when. |
| Amounts.SupportedIff | backend/app/integrations/amounts.py:16-18 | Dollars and nairas are supported in any case and among blanks, and nothing else is. |
| Amounts.RoundsHalfToEven | backend/app/integrations/amounts.py:20 | The product is rounded to the nearest, and to the even of two equally near. |
| Amounts.AcceptedIsExactIff | backend/app/integrations/amounts.py:20-25 | An accepted amount is converted exactly if and only if the product was not rounded. |
| Amounts.TwentySixDigitsAreExact | backend/app/integrations/amounts.py:20 | Every amount of at most 26 digits is within the context. |
| Amounts.RepresentationDoesNotMatter | backend/app/integrations/amounts.py:20-25 | 1.5 and 1.50 convert alike. |
| Amounts.SplitConserves | backend/app/integrations/amounts.py:14-28 | Converting the parts of a payment and adding is converting the sum. |
| Amounts.TraceIsRoundedAway | backend/app/integrations/amounts.py:20-22 | A concrete amount with thirty decimals is accepted as one cent. |
| ProfileImages.VirtualHostRoundTrip | backend/app/integrations/s3.py:120 | Every clean profile key of the avatars bucket is recovered from its virtual-host URL. |
| ProfileImages.PathStyleRoundTripIff | backend/app/integrations/s3.py:118-119 | From the path-style URL, under an endpoint with or without a path, the key is recovered if and only if no segment of that path or of the bucket's name is a namespace. |
| ProfileImages.BucketTakenForKey | backend/app/core/profile_images.py:71-78 | A bucket named like a namespace, behind an endpoint path without one, comes back as the first segment of the key. |
| ProfileImages.KeyBehind | backend/app/core/profile_images.py:68-79 | Behind any text, the key is recovered if and only if no segment of the text is a namespace. |
| ProfileImages.ScanFindsNamespace | backend/app/core/profile_images.py:75-79 | There is a key if and only if some segment is one of the three namespaces. |
| ProfileImages.ForeignHostIsRefused | backend/app/core/profile_images.py:64-66 | A URL on a host of none of the three shapes gives None. |
| ProfileImages.RegionalHost | backend/app/core/profile_images.py:82-99 | On the regional host, under any settings, the key is recovered if and only if the bucket is no namespace. |
| ProfileImages.KeyAsStored | backend/app/core/profile_images.py:59-62 | Text that is no URL is the key, and no text is none. |
| ProfileImages.DecodedThenScanned | backend/app/core/profile_images.py:68 | The path of an own URL is percent-decoded once and then scanned. |
| ProfileImages.QueryIsDropped | backend/app/core/profile_images.py:64-68 | A query or fragment makes no difference. |
| ProfileImages.BreakIsDropped | backend/app/core/profile_images.py:64-68 | A tab or line break makes no difference. |
| ProfileImages.Idempotent | backend/app/core/profile_images.py:59-79 | A recovered key resolves to itself under any settings. |
| Schedules.CadenceIsConfiguredOrDefault | backend/app/workers/schedules.py:107-129 | The row's number when it is one within the bounds, the default in every other case. |
| Schedules.BoundedStaleness | backend/app/workers/schedules.py:131-144 | On one clock, the cadence in use was loaded less than `refresh_seconds` ago and lies in the bounds when the default does. |
| Schedules.Pickled | backend/app/workers/schedules.py:81-99 | The unpickled schedule has the original's whole state, the expiry included, and no engine. |
| Schedules.StaleUntilOldExpiry | backend/app/workers/schedules.py:131-137 | From any restored state, the cadence stays while the clock is below the stored expiry, and from then on was loaded less than `refresh_seconds` ago. |
| Schedules.RestoredScheduleMissesChange | backend/app/workers/schedules.py:81-99 | A schedule that, once restored, runs on the cadence it had reached for fifteen minutes after a change, at a refresh interval of one. |
| Schedules.PlatformConfigHoursSchedule.RefreshRunEvery | backend/app/workers/schedules.py:131-137 | The cadence and expiry change exactly when the cache has expired. |
| Text.StripBlanks | backend/app/shared/taxonomy.py:114 | Stripping removes the blanks on either side and nothing else. |
| Text.ParseIntAmongBlanks | backend/app/workers/schedules.py:123 | A printed integer among blanks is read back. |
| Text.ParseIntAfterPlus | backend/app/workers/schedules.py:123 | So is a natural number after a plus sign. |
| Text.NatToStringIsCanonical | backend/app/core/rate_limit.py:78 | Printed numbers have no leading zero. |

## Left out

- RateLimitMachine.AtMostTwiceLimitPerWindow: calls are timed by their INCR, not by the moment the verdict reaches the client.
- RateLimitMachine.RetryAfterIsExact: time is in whole seconds; Redis rounds sub-second remainders of TTL, which is not modelled, nor are errors of Redis itself.
- RateLimit.RateLimiter.Check: a window of zero, where EXPIRE deletes the key, is not modelled; every limiter in the backend has a positive one.
- SignedState.ReadsBackUntilExpiry: JSON, HMAC and UTF-8 are functions with an inverse law for JSON; lone surrogates, which UTF-8 refuses, and binary rounding of timestamps are outside the model.
- SignedState.AcceptedIffSigned: says nothing about how hard a signature is to forge.
- StripeWebhook.AcceptedIff: `json.loads` guesses the encoding of the body and may fail with an encoding error instead of a JSON error; both count as not JSON.
- StripeWebhook.ParseSignatureHeader: decimal digits outside ASCII and the 4300-digit limit of `int()` are not modelled.
- Amounts.SucceedsIff: NaN, infinities and exponents beyond the context's range are not modelled.
- Commission.UpgradeKeepsChecks: rates outside 0..1 and configuration text that is no number are not covered by this lemma; conservation is proved for all rates.
- TeamCapabilities.MemberKeepsAccess: suspension and deactivation of organizations, which the migration does not touch, are not modelled.
- PayoutAccounts.EveryDowngradeSucceeds: concurrent writes during the migration are not modelled, since it runs in one transaction.
- ProfileImages.PathStyleRoundTripIff: endpoints of another scheme or with a query, hosts with brackets or characters outside ASCII, which URL splitting checks and may refuse, and percent-decoding of keys that contain `%` are not covered.
- Schedules.BoundedStaleness: the due computation of Celery's own schedule and the engine's connection pool are not modelled.
- BusinessDays.AddBusinessDays: the end of the `datetime` range is not modelled.
- The session-hint value, which nothing in the backend reads back, and the functions that set and clear cookies.
- `resolve_profile_image_url`, presigning and every other call to object storage.
- Column, index and enum definitions of the migrations, apart from the uniqueness they impose.
- The feature services (financials, projects, attestation, organizations) and all HTTP calls to providers.
- `select_provider`, `payment_failures.py` and similar tables of cases: each is a plain lookup whose result is read off its one definition.
- The frontend.
