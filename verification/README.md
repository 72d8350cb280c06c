# A verified model of the certificate manager's stateful core

The repository is a certificate authority manager: a Flask service over a SQL database that issues and revokes
certificates, publishes CRLs and OCSP answers, logs what it does, limits requests, scans networks, and backs itself
up. This project models the parts whose correctness only shows over whole runs, and proves what they promise.

Each component has a *value level* (datatypes, a `Step` or operation function, `Run` over a sequence of events, lemmas
about every run) and, where the program updates objects or tables in place, a *class* whose methods follow the code's
branches and loops and are proved to do exactly the value-level step.

| file | component |
|---|---|
| `Common.dfy` | options, results, time, looking rows up by a key, decimal and hexadecimal numbers |
| `CrlStore.dfy`, `CrlNumbering.dfy`, `CrlCompleteness.dfy`, `CrlRuns.dfy`, `CrlWitnesses.dfy`, `CrlFreshness.dfy`, `CrlService.dfy` | full and delta CRLs, revocation, the CRL scheduler |
| `RateLimiter.dfy` | token bucket and sliding window |
| `AuditChain.dfy`, `AuditService.dfy`, `AuditRace.dfy` | the hash-chained audit log, its verification and its retention; loggers that overlap |
| `OcspCache.dfy`, `OcspService.dfy` | OCSP answers and their cache |
| `Base64.dfy`, `KeyEncryption.dfy` | private keys at rest, one by one and in bulk |
| `Upsert.dfy`, `BackupFormat.dfy`, `BackupTables.dfy`, `BackupService.dfy` | the backup file, export and restore |
| `CaHierarchy.dfy`, `ChainRepair.dfy` | authorities as a forest, and the chain walk; parents set from key identifiers |
| `DiscoveryGate.dfy`, `DiscoveryTable.dfy` | the scan semaphore, and the table of scan results |
| `Anomaly.dfy`, `Migrations.dfy`, `Csrf.dfy` | sliding windows over user activity, the migration runner, CSRF tokens |

## Main results

- **CRLs.** For every interleaving of generators at their query, selection, read-number, stamp and commit points, an
  authority's CRL numbers are exactly 1..n over full and delta CRLs together, `thisUpdate` follows the numbers, and
  each delta names an earlier full CRL (`NumbersStayDense`). Each stored delta has three moments, of its base query,
  of its row selection and of its stamp; united with its base it is the full CRL of the moment of its selection
  exactly when the base missed nothing and nothing on it was taken back (`DeltaCompletesBaseIff`). Two guards on the
  run imply this (`DeltaCompletesBase`), and concrete runs show that each part of the guards is needed: one for a
  shared instant, one for a revocation during a generation, and one for each way to take a revocation back, which are
  a lifted hold, a deletion and a renewal (`TakenBackStaysListed`). What went wrong stays wrong in every continuation.
  At the `thisUpdate` it states, the union is complete exactly when no certificate was revoked between selection and
  stamp (`CompleteAtStampIff`). Renewal in place clears a revocation and replaces the serial number, so the revoked
  serial is on no later full CRL (`RenewalDropsTheSerial`). From its revocation until it is taken back, a certificate
  is in every full CRL of its authority with the date and the reason of the revocation (`IssuedThenRevokedIsListed`);
  every CRL that is made has a line for each revoked certificate whose serial can be read, with exactly the reason
  given where it is one of the ten, and no other line.
- **The CRL scheduler.** A tick makes all base checks before any delta check, and each check reads the clock up to
  three times. The latest full CRL is fresh at every moment after the first tick, in every schedule with base checks
  at most `gap` apart, delta checks that end at most `late` after their base check, and a delta interval of `h` hours,
  exactly when `gap <= 48h` and, for `h >= 24`, `2h + late + gap <= 96h` (`FreshnessExactly`);
  `FreshnessExactlyVarying` gives the exact condition where the interval changes from check to check.
  `TableStaysFresh` and `CrlService.StaysFresh` state it of the table the class holds, whatever generations on request
  and revocations come between its ticks. With the hourly ticks that the program registers (`backend/app.py:352-358`),
  up to four hours apart when late, intervals free to vary are safe exactly up to 39 hours. The API accepts up to 168
  (`backend/api/v2/crl.py:236-240`), so a configuration it accepts can leave the full CRL stale: the newest row may be
  a young delta that hides the old full CRL.
- **Rate limiting.** The token bucket with its pruned list admits exactly what a limiter would that keeps every
  admission ever made and refuses only where one more would break a bound (`TokenBucketIsGreedy`, and `NextAnswer` for
  every bucket of every run). At most `rpm` admissions in any half-open minute and at most `burst + rpm * L / 60` in
  any closed interval of length `L`, for every bucket of every run of many clients (`EveryBucketIsBounded`), counted
  since the bucket was last cleared, and over the whole run where nothing was cleared. This needs one limit for each
  bucket, which a configuration gives if and only if the patterns of its two tables agree
  (`OneLimitEachIffTablesAgree`): always without custom limits, and not for a custom limit below a built-in pattern.
- **Audit log.** Any run of logged actions, un-hashed inserts and retention verifies with at most one error, a broken
  back-link of the first selected row. A changed row is reported as a wrong entry hash (`AlterationIsReported`). Where
  no two lines of the logs compared share a hash, logs that verify and end alike are alike, and a block cut out of the
  middle is reported; a cut at the end is not. The hashed text determines the columns of a row, against every other
  row, if and only if none of them holds a bar (`FieldsDeterminedIff`). Where loggers overlap, the log verifies if and
  only if each row was linked after the row before it was committed (`VerifiesIffInStep`): always for transactions one
  at a time, and not for two that overlap by one step.
- **OCSP.** Over every run, a fresh answer is good from the issue of a certificate until something happens to it,
  revoked at the time of the revocation from then on, good again after a lifted hold or, under its new serial, after a
  renewal, and unknown for a serial on no row; it is served again for 24 hours where it was stored. A certificate that
  stays revoked from `r` on is not called good after `r + 24h` plus the time between a lookup and its storing. A CRL
  is generated between the revocation and the removal of the cached answer, and until the removal a cached "good" is
  still sent; after a removal that works, good is sent exactly when such an answer was in the making. Cleaning up
  expired rows changes no later answer.
- **Backup and keys at rest.** Restoring a backup into an empty store gives back what restore reads; restoring twice
  is restoring once, on any store. Restoring into any store gives each row that a document names that document's
  columns, keeps its others, and leaves every other row alone (`RestoreWritesColumns`). A private key survives exactly
  when it decrypts to nonempty text, but for texts that look like tokens (`KeyRestoredIffPortable`). A file is refused
  for every password that derives another key. Encrypting all keys and decrypting them restores the table exactly when
  every key is canonical base64, empty, or not base64.
- **Hierarchy, scans, migrations, windows, tokens.** Over the authority service's operations parent links form a
  forest and the chain walk returns the one path to the root; a new authority's chain is its own certificate and its
  parent's chain, and its parent cannot be deleted under it. The hourly repair sets parents from key identifiers: over
  every run with repairs all walks end if and only if no repair adds links that, with the old ones, lead round in a
  circle (`ChainRepair.ChainsEndIff`), as two imported cross-certificates do. Permits are conserved, and no
  interleaving of a caller and its thread runs both statements that give one back. Recorded migrations stay a prefix
  exactly when no integrity error is followed by a recorded migration; a bulk alert is raised exactly when a burst
  completes; a token is valid exactly from its issue to one day later, and for another user only where the two
  messages' signatures collide.

## Where the code and its intent differ

- Issuance stores serial numbers in decimal (`backend/services/cert_service.py:191`) and the CRL builder reads them in
  base 16 (`backend/services/crl_service.py:133`). The model does what the code does;
  `CrlStore.ListedUnderOwnSerialIff` says when a certificate is listed under its own serial number. The completeness
  results compare entries with entries, so they hold either way. Renewal in place stores the new serial number in
  hexadecimal instead (`backend/api/v2/certificates.py:1602`, `1980-1984`), so a renewed certificate is listed under
  its own.
- Lifting a hold commits the row first and then calls a method the audit service does not have
  (`backend/api/v2/certificates.py:1327`), so the CRL and the OCSP clean-up after it are not reached. Both ends,
  reached or not, are steps of the OCSP model.
- The OCSP code looks certificates up by an attribute the row does not have (`backend/services/ocsp_service.py:164`,
  `backend/services/cert_service.py:606`, against `backend/models/__init__.py:419`). Modelled as the intended lookup
  by serial number.
- Retention calls `limit().delete()` (`backend/services/retention_service.py:125-127`), modelled as the intended
  deletion of the first matching rows.
- The CRL scheduler filters on a Python property (`backend/services/crl_scheduler_task.py:126`), modelled as "has a
  key".
- A generator that loses the race for a number stores nothing: the audit call's flush meets the unique index and rolls
  back (`backend/services/crl_service.py:231-234`). The call itself still returns an object.
- The migration runner takes an integrity error raised inside a migration for "already applied" and reports success
  without recording it (`backend/migration_runner.py:108-112`); `Migrations.PrefixKeptIffGapFree` and
  `Migrations.IntegrityErrorLeavesGap` say what follows.
- The failed-login threshold is described as counting different users (`backend/security/anomaly_detection.py:36`);
  the code counts attempts, and so does the model.

## Model

| member | source | states |
|---|---|---|
| `CrlStore.ListedUnderOwnSerialIff` | backend/services/crl_service.py:131-143 | for a serial n of any length: an entry carries n's digits read in base 16, cut to 159 bits; where nothing is cut that is n exactly for one digit; in general it can only be n where, for every j up to 39, the last j digits read in base 16 are n modulo 16 to the j |
| `CrlStore.ListedLastDigit` | backend/services/trust_store.py:264 | a random serial is not listed as itself unless it leaves one remainder by 16 and by 10 |
| `CrlStore.RenewedIsListedAsItself` | backend/api/v2/certificates.py:1602 | renewal stores a serial in hexadecimal, so unlike an issued one it is listed as itself, for every serial below 2 to the 159 |
| `CrlNumbering.NumbersStayDense` | backend/services/crl_service.py:110-120 | in every interleaving of generators the stored numbers of an authority are exactly 1..n over full and delta CRLs, thisUpdate never decreases with the number, every delta names a stored full CRL with a smaller number |
| `CrlNumbering.InsertOutcome` | backend/migrations/004_add_delta_crl.py:17-19 | at commit a generator either gets the next free number, or its number is taken and nothing is stored |
| `CrlNumbering.CommitOk` | backend/services/crl_service.py:214-234 | a commit by any one generator keeps the numbering of every authority and what every other generator relies on |
| `CrlStore.AbortLeavesNothing` | backend/services/crl_service.py:110-120 | a generation that is given up, at whatever step, leaves nothing behind |
| `CrlStore.SettingsDecide` | backend/api/v2/crl.py:223-247 | after the settings are written a delta of a fitting length is made exactly if they allow it and the authority holds a key and has a full CRL |
| `CrlStore.TakenBackRows` | backend/api/v2/certificates.py:1311-1324 | lifting, renewing and deleting change exactly the one row, lifting only one revoked for a hold by either of its names |
| `CrlCompleteness.NothingRevokedIsLost` | backend/services/crl_service.py:373-378 | base and delta list everything a full CRL would, exactly when the base already lists every revocation dated no later than its thisUpdate (the comparison is strict) |
| `CrlCompleteness.NothingElseIsListed` | backend/services/crl_service.py:373-414 | base and delta list nothing more than a full CRL would, exactly when every entry of the base still stands for a revoked certificate |
| `CrlCompleteness.CompleteIff` | backend/services/crl_service.py:355-414 | in any state, base united with delta equals the full CRL exactly when nothing was missed and nothing taken back (RFC 5280 section 5.2.4) |
| `CrlCompleteness.FullEntriesAre` | backend/services/crl_service.py:111-155 | a line is on the full CRL if and only if it describes a revoked certificate of the authority: serial, date, and its reason where it is one of the ten |
| `CrlStore.SelectionLists` | backend/services/crl_service.py:373-414 | selecting and building, on any table: a line for every wanted certificate whose serial can be read and no other, for full CRLs and for deltas |
| `CrlCompleteness.SeenStep` | backend/services/crl_service.py:110-120 | every step but a revocation racing a full CRL whose rows are already selected keeps "nothing missed" for all stored and all unfinished full CRLs |
| `CrlCompleteness.KeptStep` | backend/services/cert_service.py:579-583 | every step that takes no revocation back keeps "nothing withdrawn" for all stored and all unfinished full CRLs |
| `CrlRuns.RowsAreKept` | backend/services/crl_service.py:214-234 | stored CRL rows are never changed or removed by later steps |
| `CrlRuns.DeltaCompletesBaseIff` | backend/services/crl_service.py:355-414 | in every interleaved run each stored delta has the moments of its base query, row selection and stamp: its base was the latest full CRL at the first, its entries are the revocations after the base's stamp at the second, its thisUpdate is the clock at the third; base and delta are the full CRL of the second exactly when the base had missed nothing and nothing on it had been taken back |
| `CrlRuns.DeltaCompletesBase` | backend/services/crl_service.py:373-414 | in every run with timely and lasting revocations, every stored delta united with its base is the full CRL of the moment its rows were selected (RFC 5280 section 5.2.4) |
| `CrlRuns.LateRevocationIsMissing` | backend/services/crl_service.py:373-390 | a revocation between a delta's row selection and its stamp is in force at its thisUpdate and on neither the delta nor its base, in every run |
| `CrlRuns.CompleteAtStampIff` | backend/services/crl_service.py:373-390 | in such runs base and delta are the full CRL of the delta's own thisUpdate exactly when no listable certificate was revoked between selection and stamp, unless one shares the instant of the selection |
| `CrlRuns.NeverListedLater` | backend/services/crl_service.py:373-378 | no delta on a full CRL, whenever made, lists a revocation dated at or before the stamp of that CRL |
| `CrlRuns.MissedForGood` | backend/services/crl_service.py:373-378 | what a full CRL has missed is on no delta on it in any continuation, and while the certificate stays revoked the two together are not the full CRL |
| `CrlRuns.WithdrawnForGood` | backend/api/v2/certificates.py:1319-1324 | an entry that stands for no revoked certificate stands for none in any continuation |
| `CrlRuns.RenewalDropsTheSerial` | backend/api/v2/certificates.py:1600-1607 | a revoked certificate renewed in place drops off every full CRL of every continuation under its old serial, unless another row stands for the same entry (RFC 5280 section 3.3) |
| `CrlRuns.IssuedThenRevokedIsListed` | backend/services/crl_service.py:111-155 | a certificate issued, later revoked and not taken back is in every full CRL of its authority, with the serial it was issued under as the builder reads it, the date and the reason of its revocation, whatever else happens in between and after |
| `CrlWitnesses.SameInstantIsMissed` | backend/services/crl_service.py:377 | a concrete run with atomic generations: a revocation in the microsecond of the base's stamp is on no delta on that base in any continuation, so the clock must advance |
| `CrlWitnesses.RevocationDuringGenerationIsMissed` | backend/services/crl_service.py:111-120 | a concrete run without shared instants: a revocation between a full CRL's row selection and its stamp is on no delta on it in any continuation, so generation must be atomic |
| `CrlWitnesses.LiftedHoldStaysListed` | backend/api/v2/certificates.py:1311-1324 | a concrete run: after a hold is lifted the base goes on listing the entry in every continuation, and no full CRL would |
| `CrlWitnesses.TakenBackStaysListed` | backend/api/v2/certificates.py:1311-1324 | for each way to take a revocation back, lifting a hold, deletion and renewal, a concrete run that keeps the other guard: the base goes on listing the entry in every continuation, and no full CRL would |
| `CrlWitnesses.RevocationDuringDeltaIsMissed` | backend/services/crl_service.py:373-390 | a concrete run that keeps both guards: base and delta list less than the full CRL of the delta's thisUpdate |
| `CrlFreshness.ThresholdIsTwoDays` | backend/services/crl_scheduler_task.py:50-71 | flooring to days and comparing with 24 hours regenerates exactly when the newest row of either kind has less than two days left, whatever the check read the clock as for its first question |
| `CrlFreshness.NeedsDeltaIff` | backend/services/crl_scheduler_task.py:164-182 | a first delta is needed once there is a full CRL; a later one once the last is stale or as old as the interval |
| `CrlFreshness.DeltaCheckMakes` | backend/services/crl_scheduler_task.py:164-190 | the delta lives for two intervals, of four hours where none is set; none is made without a full CRL or for more than 720 hours |
| `CrlFreshness.FreshWhenTicksAreClose` | backend/services/crl_scheduler_task.py:117-190 | for base checks at most gap apart, delta checks that end up to late after their base check, intervals varying in lo..hi hours whose reach leaves room for the gap, and CRLs also made by hand, the latest full CRL is not past nextUpdate until the next base check is due |
| `CrlFreshness.StaleWhenTicksAreFar` | backend/services/crl_scheduler_task.py:117-190 | beyond the bound there is such a schedule, one base check and one delta check a tick, that leaves the full CRL stale |
| `CrlFreshness.FreshnessExactlyVarying` | backend/services/crl_scheduler_task.py:117-190 | for intervals varying in lo..hi hours and checks with three readings of the clock each: always fresh from the first tick on, if and only if the gap and the reach of the longest interval, lateness included, are together at most 48 hours |
| `CrlFreshness.FreshnessExactly` | backend/models/crl.py:46-59 | for one interval: always fresh from the first tick on, if and only if gap <= 48h and, for intervals of a day or more, 2 * interval + late + gap <= 96h (RFC 5280 section 5.1.2.5) |
| `CrlFreshness.FreshForDailyDeltas` | backend/services/crl_scheduler_task.py:136-190 | with delta intervals of at most 24 hours, a gap and lateness of together 48 hours keep the full CRL fresh |
| `CrlFreshness.FreshnessForHourlyTicks` | backend/app.py:352-358 | with the hourly ticks that are registered, up to four hours apart and late by less than one, and intervals free to vary, the full CRL is always fresh exactly for intervals up to 39 hours |
| `CrlService.GeneratedIsARun` | backend/services/crl_service.py:74-236 | a generation run to its end is one of the interleavings, so every result about runs holds of it, and it keeps the invariants |
| `CrlService.CrlService.BuildEntries` | backend/services/crl_service.py:126-157 | the loop over the rows adds one line for every serial that parses, with the date of the revocation, and skips the others |
| `CrlService.CrlService.GenerateCrl` | backend/services/crl_service.py:74-236 | a full CRL is stored exactly when the authority exists and holds a key; it has a line for every revoked certificate whose serial can be read, with its reason if it is one of the ten, none where none was given, "unspecified" for any other text, and no other line; the count of revoked rows, the dates and the next dense number; an error changes nothing |
| `CrlService.CrlService.GenerateDeltaCrl` | backend/services/crl_service.py:337-481 | a delta on the latest full CRL is stored exactly when none of the checks refuses it; with its base it loses nothing exactly when the base missed nothing, and lists nothing more exactly when nothing was taken back; it has a line, with its reason, for every certificate revoked after the base's stamp and no other; after timely revocations the base misses nothing |
| `CrlService.CrlService.FindBase` | backend/services/crl_service.py:355-371 | the first refusal that applies, told apart by what the authority has; otherwise a full CRL of the authority with the highest number |
| `CrlService.CrlService.StoreFull` | backend/services/crl_service.py:110-236 | selecting, numbering and storing a full CRL keeps the invariants and takes the next dense number |
| `CrlService.FullCrlLists` | backend/services/crl_service.py:111-157 | the row made has a line for each revoked certificate of the authority whose serial can be read and no other, counts them all, and is dated |
| `CrlService.CrlService.StoreDelta` | backend/services/crl_service.py:373-481 | the row stored has a line for each certificate revoked after the base's stamp, with the reason as given if it is one of the ten, and no other line; it counts those certificates, names its base, and carries the next number and the dates |
| `CrlService.DeltaCrlLists` | backend/services/crl_service.py:373-414 | the same of a delta, for the certificates revoked after the stamp of its base |
| `CrlService.CrlService.MarkRevoked` | backend/services/cert_service.py:572-583 | revokes an unrevoked certificate at this time with this reason and changes no other row; an unknown id and a second revocation are told apart and change nothing |
| `CrlService.CrlService.RevokeCertificate` | backend/services/cert_service.py:572-597 | the revocation, then a full CRL exactly when the issuer publishes CRLs |
| `CrlService.CrlService.PublishFor` | backend/services/cert_service.py:586-597 | a full CRL of the issuer with this reference, exactly when it publishes CRLs |
| `CrlService.CrlService.ConfigureDelta` | backend/api/v2/crl.py:223-247 | within the API bounds exactly the two settings that are given change, of this authority; otherwise nothing does |
| `CrlService.LaterIsTimely` | backend/services/cert_service.py:579-583 | between generations a revocation is timely as soon as the clock has moved since the last step |
| `CrlService.CrlService.CheckBase` | backend/services/crl_scheduler_task.py:50-71 | one base check with its three readings of the clock is one step of the freshness model, recorded in the history of the authority |
| `CrlService.CrlService.CheckDelta` | backend/services/crl_scheduler_task.py:164-190 | one delta check with its three readings of the clock leads to a new delta exactly when the freshness model makes one |
| `CrlService.CrlService.NeedsDelta` | backend/services/crl_scheduler_task.py:164-190 | the three questions about the latest delta, each with its own reading of the clock, come to what the freshness model asks |
| `CrlService.NeedsDeltaAsked` | backend/services/crl_scheduler_task.py:166-182 | asking the table for the highest-numbered delta is asking for the last one made |
| `CrlService.CrlService.CheckBases` | backend/services/crl_scheduler_task.py:136-150 | the first loop checks each publishing authority once, each at its own readings of the clock, and touches no other |
| `CrlService.CrlService.CheckDeltas` | backend/services/crl_scheduler_task.py:159-190 | the second loop checks each publishing authority with deltas once, each at its own readings of the clock |
| `CrlService.CrlService.Execute` | backend/services/crl_scheduler_task.py:117-190 | every authority with a key and CRLs on gets one base check, every one of these with deltas on also one delta check after all base checks, each at its own readings of the clock, and no other authority anything |
| `CrlService.ExecuteKeepsSchedule` | backend/services/crl_scheduler_task.py:117-190 | from what a tick promises: one that ends within the gap of an authority's last base check and lasts at most late keeps the history of the authority within the schedule, and the next tick may end up to the gap after its start |
| `CrlService.TableStaysFresh` | backend/services/crl_scheduler_task.py:117-190 | an authority whose history kept to the schedule, with generations on request and revocations anywhere between, has a latest full CRL that is not stale |
| `CrlService.CrlService.StaysFresh` | backend/services/crl_scheduler_task.py:117-190 | the same of the service's own table at any time |
| `RateLimiter.SameKeySamePattern` | backend/security/rate_limiter.py:225-232 | equal bucket keys come from equal clients and equal path patterns, even where addresses contain colons |
| `RateLimiter.LimitAndBucket` | backend/security/rate_limiter.py:145-159 | a custom limit goes before a built-in one, within a table the first pattern the path begins with decides, and the fallback comes last; buckets go by client and built-in pattern |
| `RateLimiter.OneLimitPerBucket` | backend/security/rate_limiter.py:145-159 | without custom limits, all requests counted in one bucket are held to one limit |
| `RateLimiter.NoCustomOneLimit` | backend/security/rate_limiter.py:145-159 | a configuration without custom limits has one limit for each bucket |
| `RateLimiter.OneLimitEachIffTablesAgree` | backend/security/rate_limiter.py:145-159 | for any configuration, all requests counted in one bucket are held to one limit if and only if the patterns of the custom and default tables that fall into one bucket have one limit |
| `RateLimiter.CustomLimitSharesBucket` | backend/security/rate_limiter.py:225-232 | a concrete configuration and two paths that share a bucket and have different limits |
| `RateLimiter.UniformStep` | backend/security/rate_limiter.py:251-267 | where the tables agree, every checked request keeps each bucket on one limit |
| `RateLimiter.EveryBucketIsSteady` | backend/security/rate_limiter.py:234-285 | where the tables agree, over any run of checks and clearings by many clients each bucket is charged under one limit by a clock that does not go back |
| `RateLimiter.EveryBucketIsBounded` | backend/security/rate_limiter.py:234-285 | then after any run, every bucket kept to both bounds below since it was last cleared |
| `RateLimiter.UnclearedLogIsWhole` | backend/security/rate_limiter.py:335-343 | without clearings a bucket's log is every request of the run that falls to it |
| `RateLimiter.RequestsAreTheLastMinute` | backend/security/rate_limiter.py:271-272 | the pruned list always equals the admissions of the last 60 seconds of the whole history |
| `RateLimiter.AtMostRpmPerMinute` | backend/security/rate_limiter.py:271-285 | any half-open minute of any run of one bucket under a fixed limit, since it was last cleared, holds at most rpm admissions |
| `RateLimiter.AtMostBurstPlusRate` | backend/security/rate_limiter.py:274-285 | any closed interval of length L of such a run holds at most burst + rpm * L / 60 admissions |
| `RateLimiter.WaitingClearsTheWindow` | backend/security/rate_limiter.py:298-303 | a refused caller, whatever refused attempts come in between, is not refused by the window count once retry_after is over |
| `RateLimiter.TokenBucketIsGreedy` | backend/security/rate_limiter.py:254-296 | over a steady log the token bucket with its pruned list admits exactly the requests that a limiter with neither would admit, one that lets through whatever keeps fewer than rpm in 60 seconds and burst plus the rate from every earlier admission |
| `RateLimiter.AdmittedIffRoom` | backend/security/rate_limiter.py:271-285 | refused only when it must be: an attempt gets through if and only if one more admission keeps both bounds |
| `RateLimiter.NextAnswer` | backend/security/rate_limiter.py:234-296 | the same of the next request in any run of many clients, where the tables agree and the clock does not go back |
| `RateLimiter.RemainingIsExact` | backend/security/rate_limiter.py:288-296 | `remaining` is the number of further requests that the rate leaves room for at this very moment |
| `RateLimiter.AdmissionsGrow` | backend/security/rate_limiter.py:283-296 | an attempt adds its own time to the admissions, or nothing |
| `RateLimiter.RateLimiter.Prune` | backend/security/rate_limiter.py:272 | the list comprehension keeps exactly the requests younger than the window |
| `RateLimiter.RateLimiter.TakeToken` | backend/security/rate_limiter.py:271-285 | pruning, refilling and taking one token, or none where there is no token or the window is full; that this refuses only when it must is TokenBucketIsGreedy |
| `RateLimiter.RateLimiter.Charge` | backend/security/rate_limiter.py:262-285 | one attempt at a bucket, new or old, leaves it as the replay of its whole history |
| `RateLimiter.RateLimiter.Record` | backend/security/rate_limiter.py:260-296 | total, refused and per-endpoint counters move together |
| `RateLimiter.AdviceIsBounded` | backend/security/rate_limiter.py:288-311 | a refused caller is told to wait 1 to 61 seconds, the least whole number after which the oldest counted request has left the window; an admitted one is told at most burst - 1 requests left and a reset 60 to 119 seconds ahead |
| `RateLimiter.RateLimiter.Serve` | backend/security/rate_limiter.py:254-311 | charging the bucket and describing it: the answer, the log and the advice belong to the same request |
| `RateLimiter.RateLimiter.Limited` | backend/security/rate_limiter.py:254-311 | a charged call is one attempt at the bucket of its key under the limit of its path, and one more event of the limiter's history |
| `RateLimiter.RateLimiter.CheckRateLimit` | backend/security/rate_limiter.py:234-311 | a switched-off or whitelisted client is let through and nothing changes; otherwise, where the tables agree and the clock does not go back, the request is let through if and only if fewer than rpm of its bucket's admissions lie in the last 60 seconds and, counted from any one of them, they leave room for one more under burst plus rpm for each minute; the counters and the advice follow |
| `RateLimiter.RateLimiter.ClearBucket` | backend/security/rate_limiter.py:335-343 | removes exactly the buckets of the client, or all, and leaves the others as they were |
| `AuditChain.RunReportsAtMostItsStart` | backend/services/audit_service.py:128-177 | any run of logging, un-hashed inserts and retention, verified between any two ids, reports nothing but a broken back-link of the first selected row |
| `AuditChain.RunVerifies` | backend/services/audit_service.py:94-103 | without retention the whole log verifies, un-hashed rows included |
| `AuditChain.StepLinked` | backend/api/est_protocol.py:150-158 | a logged action, a direct insert and a prefix deletion each keep every hashed row linked to the row before it |
| `AuditChain.LineDetermines` | backend/models/__init__.py:948-952 | the hashed line determines the id, the joined column text and the previous hash |
| `AuditChain.FieldsDetermined` | backend/models/__init__.py:948-952 | between two rows without a separator in a column but the details, and without the text None, the joined text determines every hashed column |
| `AuditChain.FieldsDeterminedIff` | backend/models/__init__.py:948-952 | for any row: the joined text determines its columns against every other row, up to None and the text None, if and only if none of its columns holds a bar |
| `AuditChain.OneLineTwoRows` | backend/models/__init__.py:948-952 | two rows with different actions and resource types that are hashed as one line |
| `AuditChain.SameEndSameLog` | backend/models/__init__.py:948-952 | where no two lines of two logs collide: logs of equal length that verify, are fully hashed and end in the same hash agree on every line |
| `AuditChain.RemovalIsReported` | backend/services/audit_service.py:143-177 | where no two lines of a verified log collide, cutting a non-empty block out of it is reported by exactly one mismatch, at the first row after the cut |
| `AuditChain.AlterationIsReported` | backend/services/audit_service.py:143-177 | a row of a verified log whose line is changed, and not its hashes, is reported as one wrong entry hash and nothing else, unless the two lines collide |
| `AuditChain.TamperEvidenceApplies` | backend/services/audit_service.py:80-103 | a codec and three logged actions that meet every hypothesis of the two results above |
| `AuditChain.TruncationIsSilent` | backend/services/audit_service.py:143-177 | cutting the end off a verified log is never reported |
| `AuditService.BatchIsPart` | backend/services/retention_service.py:124-133 | a batch removes min(limit, old rows) rows and never one that should stay |
| `AuditChain.KeptAre` | backend/services/audit_service.py:420-426 | retention keeps exactly the rows that are not older than the cutoff |
| `AuditService.AuditLog.LogAction` | backend/services/audit_service.py:80-103 | appends one row with these columns, the next id, the hash of the row before it (the start value where there is none or it has none), and its own hash over both |
| `AuditService.AuditLog.InsertDirect` | backend/api/est_protocol.py:150-158 | appends one row with neither hash |
| `AuditService.AuditLog.CleanupOldLogs` | backend/services/audit_service.py:420-426 | removes exactly the rows older than the cutoff and says how many |
| `AuditService.AuditLog.DeleteBatches` | backend/services/retention_service.py:120-133 | the batch loop ends, having removed every old row and no other, and counts them |
| `AuditService.AuditLog.CleanupInBatches` | backend/services/retention_service.py:100-137 | batched retention equals one deletion of every old row; the statistics move by the number removed |
| `AuditService.AuditLog.CheckRow` | backend/services/audit_service.py:152-169 | a hashed row is reported for its back-link exactly when it has one and it is not the carried hash, and for its own hash exactly when it is not the hash of its line |
| `AuditService.AuditLog.Scan` | backend/services/audit_service.py:143-171 | the verification loop reports the mismatches of every row against its predecessor, in order |
| `AuditService.AuditLog.VerifyIntegrity` | backend/services/audit_service.py:128-177 | the errors of the rows between the two ids, in any log this class can hold: valid exactly where the block is empty or its first row is unhashed or points to the start |
| `AuditRace.VerdictOnRow` | backend/services/audit_service.py:92-103 | whatever loggers overlap: a row is reported exactly when the row before it was not yet committed when it was linked, and then as one broken back-link |
| `AuditRace.VerifiesIffInStep` | backend/services/audit_service.py:92-103 | over every interleaving of flushes, links, commits and rollbacks the log verifies if and only if each row was linked after the row before it was committed |
| `AuditRace.SerialVerifies` | backend/services/audit_service.py:92-103 | loggers that take turns, rolled back or not, leave a log that verifies |
| `AuditRace.OverlapForks` | backend/services/audit_service.py:94-103 | a concrete interleaving of two loggers whose second row is reported |
| `AuditRace.OneTransaction` | backend/services/audit_service.py:80-103 | a transaction that nothing comes between appends the row log_action appends, under the next free id; rolled back, it costs an id and nothing else |
| `OcspCache.AnswersAreRecent` | backend/services/ocsp_service.py:162-187 | every answer sent is what the certificate table said at some lookup of the run, at most 24 hours and the storing time earlier |
| `OcspCache.IssuedIsGood` | backend/services/ocsp_service.py:162-183 | a certificate under a new id and serial is answered good in every continuation that does not revoke, renew or delete it |
| `OcspCache.RevokedSaysWhen` | backend/services/ocsp_service.py:162-183 | from its revocation on it is answered revoked at that time, until a hold is lifted or the row renewed or deleted |
| `OcspCache.LiftedIsGood` | backend/api/v2/certificates.py:1311-1324 | after a lifted hold it is answered good; lifting what is no hold changes no answer |
| `OcspCache.RenewedIsGood` | backend/api/v2/certificates.py:1600-1607 | after a renewal it is answered good under the new serial, if that is new |
| `OcspCache.AbsentIsUnknown` | backend/services/ocsp_service.py:162-169 | a serial on no row is unknown as long as no row gets it |
| `OcspCache.DeletedIsUnknown` | backend/services/ocsp_service.py:162-169 | after a deletion the serial is unknown, if no other row has it |
| `OcspCache.StoredIsServed` | backend/services/ocsp_service.py:316-346 | a stored response is what every request within its 24 hours gets, until it is dropped or replaced |
| `OcspCache.GoodEndsWithinADay` | backend/services/ocsp_service.py:316-346 | while a certificate stays revoked no answer says good later than 24 hours and the storing time after the revocation, even if invalidation fails (RFC 6960 sections 2.4 and 4.2.2.1) |
| `OcspCache.GoodEndsUnlessTakenBack` | backend/api/v2/certificates.py:1318-1324 | the same for any run in which no row is deleted or renewed and no hold lifted after the revocation |
| `OcspCache.NoGoodAfterInvalidation` | backend/services/cert_service.py:599-611 | where a certificate is revoked, the removal of its cached answer works and no good answer is in the making, no continuation that takes nothing back ever calls the certificate good |
| `OcspCache.GoodIsSentLaterIff` | backend/services/cert_service.py:599-611 | after a removal of the cached answer that works, some such continuation sends good if and only if a good answer for the key was in the making |
| `OcspCache.InFlightAnswerSurvives` | backend/services/ocsp_service.py:267-314 | a good answer in the making, stored after the removal, is served as good for another day |
| `OcspCache.RevokedFromThenOn` | backend/services/ocsp_service.py:162-183 | the first row with a serial, once revoked, is what the table says in every continuation that takes nothing back |
| `OcspCache.WindowStillSaysGood` | backend/services/cert_service.py:583-611 | between the commit of a revocation and the removal of the cached answer, while a CRL is generated, a cached good answer is still sent |
| `OcspCache.RenewedSerialIsUnknown` | backend/api/v2/certificates.py:1600-1607 | renewal in place makes the responder forget the old serial of a certificate, revoked or not |
| `OcspCache.CleanupIsInvisible` | backend/services/ocsp_service.py:348-360 | removing expired rows changes no answer of any continuation |
| `OcspCache.CleanupKeepsTheLive` | backend/services/ocsp_service.py:348-360 | cleaning up removes exactly the responses whose nextUpdate is past |
| `OcspCache.LookupSays` | backend/services/ocsp_service.py:162-183 | a lookup gives the status that the rows say, and only that one |
| `OcspService.AskedIsServed` | backend/api/ocsp_routes.py:105-118 | a request answered at one instant is the lookup and the storing of the interleaved model |
| `OcspService.OcspService.DetermineStatus` | backend/services/ocsp_service.py:162-183 | unknown exactly where no row has the serial, else what the first row with it says: good unless revoked, and revoked with its date |
| `OcspService.OcspService.GetCachedResponse` | backend/services/ocsp_service.py:316-346 | the stored answer exactly while its nextUpdate is not past |
| `OcspService.OcspService.GenerateResponse` | backend/services/ocsp_service.py:137-265 | a response with the status that the rows give, valid from now for 24 hours, stored where storing works |
| `OcspService.OcspService.ProcessRequest` | backend/api/ocsp_routes.py:99-118 | none from a responder that is off; a cached response whose nextUpdate is not past comes back unchanged; otherwise one with the status that the rows give, for 24 hours, with the nonce of the request, and stored where storing works |
| `OcspService.OcspService.CleanupExpiredResponses` | backend/services/ocsp_service.py:348-360 | exactly the responses whose nextUpdate is past are removed and counted; the others stay as they are |
| `OcspService.OcspService.RevokeCertificate` | backend/services/cert_service.py:572-613 | revokes at one time and at a later one drops the cached answer, two steps of the model; a failed drop does not undo the revocation |
| `OcspService.OcspService.Unhold` | backend/api/v2/certificates.py:1318-1352 | lifts a revocation that is a hold and nothing else; the later clean-up of cached answers may not be reached |
| `OcspService.OcspService.Renew` | backend/api/v2/certificates.py:1600-1609 | renewal in place replaces the serial number, clears the revocation and leaves the cached answers alone |
| `Base64.DecodeEncode` | backend/security/encryption.py:105-108 | decoding undoes encoding for all bytes (RFC 4648 section 4), with the lenient decoder |
| `Base64.EncodeInjective` | backend/security/encryption.py:105-108 | different bytes are printed differently |
| `Base64.LineBreaksArePassedOver` | backend/security/encryption.py:97-103 | decodable text need not be canonical: a concrete text with a line break |
| `Base64.ForeignIsPassedOver` | backend/security/encryption.py:97-103 | any character outside the alphabet and the padding is passed over, wherever it stands |
| `Base64.PaddingEndsReading` | backend/security/encryption.py:97-103 | a padded last group ends the reading whatever follows; without all its padding it raises |
| `Base64.StandardVectors` | backend/security/encryption.py:105-108 | the test vectors of RFC 4648, section 10 |
| `Base64.AlphabetIsStandard` | backend/security/encryption.py:105-108 | the alphabet of RFC 4648, section 4 |
| `KeyEncryption.RoundTripIffCanonical` | backend/security/encryption.py:93-138 | decrypting an encrypted, unmarked key gives back the very text if and only if it was empty or canonical base64; undecodable text is left alone and then makes decrypting raise |
| `KeyEncryption.DecryptAnswers` | backend/security/encryption.py:113-138 | a clear key comes back as it is, an encrypted one as base64 of what its token holds; undecodable text, a missing key and a wrong key are told apart |
| `KeyEncryption.EncryptIsIdempotent` | backend/security/encryption.py:97-103 | encrypting an encrypted key changes nothing |
| `KeyEncryption.SecondPassChangesNothing` | backend/security/encryption.py:238-277 | a second bulk pass changes no row, and reports as encrypted exactly the empty and undecodable keys |
| `KeyEncryption.EncryptedRowIs` | backend/security/encryption.py:238-277 | a clear key that decodes becomes the marker ENC: and a token for its bytes; every other row is left alone |
| `KeyEncryption.DecryptedRowIs` | backend/security/encryption.py:196-235 | a key whose token is rejected stays, one whose token opens becomes base64 of what it holds |
| `KeyEncryption.TableRestoredIff` | backend/security/encryption.py:196-277 | encrypting a table without encrypted keys and decrypting it restores it if and only if every key is canonical base64, empty, or not base64 |
| `KeyEncryption.EveryKeyIsCounted` | backend/security/encryption.py:210-235 | converted, skipped and failed rows together are the rows holding a key |
| `KeyEncryption.KeyStore.EncryptTable` | backend/security/encryption.py:252-261 | one encryption loop: every unencrypted key is replaced unless it is a dry run, and both counters count |
| `KeyEncryption.KeyStore.EncryptAllKeys` | backend/security/encryption.py:238-277 | both tables in one pass; without a key, or in a dry run, no row changes |
| `KeyEncryption.KeyStore.DecryptKey` | backend/security/encryption.py:211-219 | where the token opens, base64 of exactly what it holds; where it does not, or in a dry run, the row as it was |
| `KeyEncryption.KeyStore.DecryptTable` | backend/security/encryption.py:210-219 | one decryption loop: what opens is replaced and counted, what fails is counted as an error |
| `KeyEncryption.KeyStore.DecryptAllKeys` | backend/security/encryption.py:196-235 | both tables: clear keys and keys that do not open stay, the others become their contents; the report adds up to the rows with a key, and counts the failures as errors |
| `Upsert.IntoEmpty` | backend/services/backup_service.py:793-812 | documents with distinct keys restored into an empty table become its rows, in order |
| `Upsert.RowAgrees` | backend/services/backup_service.py:793-812 | after a restore each key that was in the documents has a row agreeing with the last document for it |
| `Upsert.RowAfter` | backend/services/backup_service.py:793-812 | the row of each key afterwards is the one there was, or the one its first document inserts, written over by its last document; a key without a document keeps its row |
| `Upsert.KeysStayDistinct` | backend/services/backup_service.py:793-812 | unique keys stay unique |
| `Upsert.TwiceIsOnce` | backend/services/backup_service.py:793-812 | restoring the same documents again changes nothing, on any table and however often a key repeats |
| `Upsert.ViewOfAll` | backend/services/backup_service.py:827-850 | restoring and then reading keys decrypted is restoring the decrypted rows |
| `BackupFormat.FromToHex` | backend/services/backup_service.py:182-187 | reading hexadecimal undoes printing it |
| `BackupFormat.HexAt` | backend/services/backup_service.py:182-187 | two lower-case digits a byte, the high one first |
| `BackupFormat.KeyOpensOnlyUnderItsMaster` | backend/services/backup_service.py:164-187 | a sealed private key opens to its text under every master key that derives the same key, and under no other |
| `BackupFormat.SealedFields` | backend/services/backup_service.py:164-187 | the three fields of a sealed key: salt, nonce, and the text sealed under the key derived from the master key and that salt |
| `BackupFormat.UnpackPack` | backend/services/backup_service.py:109-128 | the file opens to the whole document under its password, and does not decrypt under a password that derives another key |
| `BackupFormat.FileLayout` | backend/services/backup_service.py:109-128 | 32 bytes of salt, 12 of nonce, and sealed behind them the document with the hash of its dump without a checksum |
| `BackupFormat.UnpackRefusals` | backend/services/backup_service.py:735-767 | a file of fewer than 44 bytes, one that does not unseal, one that is no text and one that is no JSON are told apart |
| `BackupFormat.AlteredIsRefused` | backend/services/backup_service.py:761-767 | a document replaced by a different one under the checksum of the first: their dumps differ, and the file is refused exactly when the hashes of the dumps differ, and taken whole exactly when they are equal |
| `BackupFormat.NoChecksumNoRefusal` | backend/services/backup_service.py:761-767 | without a checksum entry any document is taken |
| `BackupTables.OpenSealed` | backend/services/backup_service.py:695-715 | decrypting every sealed key of a list gives back the drafts that were sealed |
| `BackupTables.KeyRestoredIffPortable` | backend/services/backup_service.py:302-308 | a private key comes back equal after at-rest decryption if and only if there was none, or it decrypts to nonempty text, but for texts that begin with the at-rest marker, where the condition says when |
| `BackupTables.RestoredKeyReads` | backend/services/backup_service.py:827-850 | the restored column reads as the backed-up text whatever randomness at-rest encryption draws; text that begins with the at-rest marker reads as the token it looks like |
| `BackupTables.HoldersIntoEmpty` | backend/services/backup_service.py:814-890 | every authority and certificate comes back with its refid, description, metadata, and (exactly when canonical) its certificate |
| `BackupTables.SettingsIntoEmpty` | backend/services/backup_service.py:908-917 | exactly the settings that are not encrypted come back |
| `BackupTables.RestoreTwiceIsOnce` | backend/services/backup_service.py:793-919 | restoring any document twice equals restoring it once, on any store, up to at-rest randomness |
| `BackupTables.RestoreWritesColumns` | backend/services/backup_service.py:793-919 | on any store: every row a document names has the columns of its last document and keeps the others, a restored key is encrypted at rest where a cipher is configured, and rows that no document names are unchanged |
| `BackupTables.RestoreKeepsKeysUnique` | backend/services/backup_service.py:793-919 | usernames, refids and setting keys stay unique |
| `BackupTables.ExportFailsIff` | backend/services/backup_service.py:282-312 | the export fails exactly when some certificate column is neither empty nor base64 of text |
| `BackupService.BackupRestores` | backend/services/backup_service.py:37-128 | a backup restored with its password into an empty store gives back every field that restore reads; a password that derives another key is refused, into any store |
| `BackupService.RestoringAgainChangesNothing` | backend/services/backup_service.py:717-919 | any file that restores can be restored again with no further effect |
| `BackupService.UpsertRows` | backend/services/backup_service.py:793-812 | the restore loop of a plain table |
| `BackupService.RestoreHolders` | backend/services/backup_service.py:814-851 | the restore loop of a table with private keys; one key that fails to decrypt fails the whole |
| `BackupService.ExportTable` | backend/services/backup_service.py:282-312 | the export loop of a table; a certificate that is not base64 of text fails the whole |
| `BackupService.SealTable` | backend/services/backup_service.py:695-715 | every clear key is replaced by its sealed form |
| `BackupService.ExportConfiguration` | backend/services/backup_service.py:201-226 | the settings loop skips encrypted ones |
| `BackupService.BackupService.CreateBackup` | backend/services/backup_service.py:37-128 | refused for a password of fewer than 12 characters or 8 different ones, then for a certificate that is not base64 of text; otherwise a file that begins with its salt and nonce and whose contents BackupRestores takes apart |
| `BackupService.BackupService.RestoreBackup` | backend/services/backup_service.py:717-919 | an error changes nothing; otherwise each row named by a document gets that document's columns and keeps its others (a user's e-mail, name, role, active flag and password hash, not the MFA flag; a holder's description, certificate and key, kept encrypted where a key is configured; a setting's value, not its flag), and every other row is as it was |
| `CaHierarchy.RunKeepsForest` | backend/services/ca_service.py:71-93 | over every run of the service's creations, imports, requests, signings, issuances and deletions each reference names a live authority and parent links form a forest |
| `CaHierarchy.SignedRowsAreKept` | backend/services/cert_service.py:331-332 | a signed certificate keeps its row and its issuer through every operation but its own deletion |
| `CaHierarchy.DeleteCaIffUnused` | backend/services/ca_service.py:261-269 | a deletion is refused exactly while a certificate or an authority refers to the row |
| `CaHierarchy.ChainIsPathToRoot` | backend/services/ca_service.py:321-345 | the chain of a live authority ends at one without a parent, each followed by its parent, none twice |
| `CaHierarchy.PathToRootIsUnique` | backend/services/ca_service.py:321-345 | any walk along parents to a root is that chain |
| `CaHierarchy.DeletionKeepsOtherChains` | backend/services/ca_service.py:249-293 | deleting an authority leaves every other chain as it was |
| `CaHierarchy.CreatedUnderParent` | backend/services/ca_service.py:69-145 | after a creation the chain of the new authority is its row and then the chain of its parent with the parent's serial one higher; every other row is as it was |
| `CaHierarchy.CreationKeepsOtherChains` | backend/services/ca_service.py:69-145 | every other chain holds the certificates it held |
| `CaHierarchy.ChildHoldsParent` | backend/services/ca_service.py:261-269 | an authority cannot be deleted under a child just created |
| `CaHierarchy.IssuedHoldsIssuer` | backend/services/ca_service.py:261-269 | nor under a certificate it just issued |
| `CaHierarchy.WalkChain` | backend/services/ca_service.py:332-345 | the walking loop ends and collects the certificates of the whole chain, leaf to root |
| `CaHierarchy.CaService.CreateInternalCa` | backend/services/ca_service.py:69-145 | refused, in this order, for an unknown parent, a parent without a key, a taken refid, with nothing changed; otherwise the new row holds a key, serial 0, this certificate and this parent, the parent's serial is one higher, every other row is as it was, and the new chain is the new row and then the parent's chain |
| `CaHierarchy.CaService.LoadParent` | backend/services/ca_service.py:71-93 | an unknown parent and one without a key are told apart; otherwise only the parent's serial moves |
| `CaHierarchy.CaService.Commit` | backend/services/ca_service.py:127-145 | a new row gets the next id and zero serial, or the unique refid refuses it |
| `CaHierarchy.CaService.ImportCa` | backend/services/ca_service.py:199-215 | an imported authority has no parent |
| `CaHierarchy.CaService.DeleteCaRow` | backend/services/ca_service.py:249-293 | deleted exactly when no certificate and no authority refers to it, and then every other row is kept; refused with the number of certificates, or else of child authorities |
| `CaHierarchy.CaService.CreateCertificate` | backend/services/cert_service.py:108-114 | issued exactly when the issuer exists and holds a key: the new row names the issuer, whose serial is one higher, and nothing else changes |
| `CaHierarchy.CaService.AddCertificate` | backend/services/cert_service.py:270-282 | a signing request or an imported certificate names no issuer |
| `CaHierarchy.CaService.SignRequest` | backend/services/cert_service.py:324-340 | the request is looked at before the issuer, each refusal told apart; signing writes the issuer's refid into this one row and raises the issuer's serial by one |
| `CaHierarchy.CaService.DeleteCertificate` | backend/services/cert_service.py:673-706 | deletes one certificate row or says it is unknown |
| `CaHierarchy.CaService.GetCaChain` | backend/services/ca_service.py:321-345 | the chain of an id; empty for an unknown one |
| `ChainRepair.LoopedByRepair` | backend/services/ski_aki_backfill.py:94-126 | one repair of any table closes a loop exactly when its new links, each followed by old ones, lead round in a circle |
| `ChainRepair.StepKeepsLoops` | backend/services/ca_service.py:69-145 | no operation of the service closes a loop of parents or breaks one |
| `ChainRepair.EndsIffNoLoop` | backend/services/ca_service.py:332-345 | the walk from every authority ends, within as many steps as there are authorities, if and only if no authority is its own ancestor |
| `ChainRepair.ChainsEndIff` | backend/services/ski_aki_backfill.py:94-126 | over every run of the service's operations and repairs, the walk from every authority ends if and only if no repair's links led round in a circle |
| `ChainRepair.CrossCertificatesNeverEnd` | backend/services/ski_aki_backfill.py:94-126 | a concrete run: two imported cross-certificates become each other's parent and the walk never ends |
| `ChainRepair.RepairedRows` | backend/services/ski_aki_backfill.py:94-126 | a repair changes only the parent of an orphan whose certificate names an issuer key other than its own: it becomes the first authority with that key, if there is one |
| `DiscoveryGate.PermitsAreConserved` | backend/services/discovery_service.py:36-37 | in every interleaving free permits plus scans holding one equal three |
| `DiscoveryGate.RefusedIffThreeInFlight` | backend/services/discovery_service.py:240-244 | a start is refused exactly when three admitted scans are in flight |
| `DiscoveryGate.EveryScanInStep` | backend/services/discovery_service.py:304-311 | in every interleaving a thread exists exactly when its caller got past starting it, so a caller in its except clause has no thread |
| `DiscoveryGate.ReleasedExactlyOnce` | backend/services/discovery_service.py:245-345 | in every interleaving at most one of the caller's and the thread's release statements runs for a permit, at most once, and one has run exactly when the scan is over |
| `DiscoveryGate.ThreadMayEndFirst` | backend/services/discovery_service.py:304-311 | a concrete interleaving: the thread raises, recovers and gives its permit back before its caller has returned |
| `DiscoveryGate.AllOverAllFree` | backend/services/discovery_service.py:328-345 | all permits are free exactly when every admitted scan is over |
| `DiscoveryGate.ScanGate.TryAcquire` | backend/services/discovery_service.py:240-244 | takes a permit without blocking, or refuses |
| `DiscoveryGate.ScanGate.PrepareAndLaunch` | backend/services/discovery_service.py:254-311 | either raises before there is a thread, or leaves the thread running |
| `DiscoveryGate.ScanGate.StartScan` | backend/services/discovery_service.py:240-252 | refused, or the try block; a preparation that raises reaches the except clause, which gives the permit back; a launched scan keeps it |
| `DiscoveryGate.ScanGate.DoScan` | backend/services/discovery_service.py:328-343 | the thread's try and except clauses end before the finally clause whichever of them raises |
| `DiscoveryGate.ScanGate.ExecuteScan` | backend/services/discovery_service.py:324-345 | the finally clause gives the permit back once, whether the body ends, raises, or the recovery raises too |
| `DiscoveryTable.KeysStayUnique` | backend/services/discovery_service.py:458-511 | one row per target, port and SNI name after any results |
| `DiscoveryTable.KeysAreIndependent` | backend/services/discovery_service.py:442-513 | the loop over mixed results does to each key what that key's own saved results would do |
| `DiscoveryTable.ArrivalOrderIsIrrelevant` | backend/services/discovery_service.py:380-382 | probes may finish in any order: only each key's own order matters |
| `DiscoveryTable.RowHoldsLastOutcome` | backend/services/discovery_service.py:442-513 | a key with saved results holds the last of them: the served certificate without error, or the error over the certificate last served; other keys are untouched |
| `DiscoveryTable.RowHoldsItsHistory` | backend/services/discovery_service.py:442-513 | when a key was first and last seen, its profile, its host name, and when its certificate last changed and from which, read off the stored row and the key's own results |
| `DiscoveryTable.OnlyConnectionErrorsAreSkipped` | backend/services/discovery_service.py:442-452 | errors of the four connection kinds are passed over, and nothing else is |
| `DiscoveryTable.ChangesAreCounted` | backend/services/discovery_service.py:467-468 | changed_certs is the number of results that replaced a known fingerprint by a different one, read off the results alone |
| `DiscoveryTable.DiscoveryStore.SaveError` | backend/services/discovery_service.py:559-577 | an error keeps the certificate columns of an existing row |
| `DiscoveryTable.DiscoveryStore.SaveServed` | backend/services/discovery_service.py:453-511 | one served certificate: change detection, then update or insert |
| `DiscoveryTable.DiscoveryStore.SaveResults` | backend/services/discovery_service.py:442-513 | the whole save loop and its change counter |
| `Anomaly.CallSeesTheWindow` | backend/security/anomaly_detection.py:116-127 | what a call looks at is the user's operations of the last five minutes since the last alert; earlier pruning loses nothing |
| `Anomaly.StoredIsTheWindow` | backend/security/anomaly_detection.py:116-124 | the stored list is the operations of the last five minutes since the last alert |
| `Anomaly.UnreportedStaysSmall` | backend/security/anomaly_detection.py:129-144 | for non-negative counts fewer than fifty items are left unreported, after any calls and at any later moment |
| `Anomaly.AlertIffBurst` | backend/security/anomaly_detection.py:126-144 | a call alerts if and only if it completes a stretch of unreported calls within five minutes that reaches fifty items |
| `Anomaly.BurstsAreReported` | backend/security/anomaly_detection.py:108-144 | every stretch of calls within five minutes that reaches fifty items contains an alert |
| `Anomaly.FlaggedIffFiveRecent` | backend/security/anomaly_detection.py:83-100 | a failure is flagged if and only if it and the four before it from the address fall within five minutes |
| `Anomaly.AnomalyDetector.RecordBulkOperation` | backend/security/anomaly_detection.py:108-144 | alerts exactly when the user's whole history calls for it; other users are untouched |
| `Anomaly.AnomalyDetector.RecordFailedLogin` | backend/security/anomaly_detection.py:83-100 | flags exactly when the address's whole history calls for it |
| `Anomaly.AnomalyDetector.Prune` | backend/security/anomaly_detection.py:119-124 | keeps exactly the entries younger than five minutes |
| `Anomaly.AnomalyDetector.Sum` | backend/security/anomaly_detection.py:127 | adds the counts |
| `Migrations.RunInClosedForm` | backend/migration_runner.py:138-161 | a run records exactly the recordable files before the first that stops it, starts nothing beyond it, and succeeds exactly when nothing stops it |
| `Migrations.RunByOutcome` | backend/migration_runner.py:62-124 | outcome by outcome: what a run records, where it stops, and with which verdict |
| `Migrations.PrefixKeptIffGapFree` | backend/migration_runner.py:62-124 | recorded migrations stay a prefix of the files if and only if no integrity error is followed by a recorded migration |
| `Migrations.IntegrityErrorLeavesGap` | backend/migration_runner.py:108-112 | a concrete run that reports success and records only the second of two files |
| `Migrations.RecordedIsNotRerun` | backend/migration_runner.py:39-51 | no code of a recorded migration is started, dry or not, and nothing recorded is forgotten |
| `Migrations.DryRunChangesNothing` | backend/migration_runner.py:69-71 | a dry run records and starts nothing, and succeeds exactly when every file loads |
| `Migrations.LeftAfterSuccess` | backend/migration_runner.py:108-112 | after a success exactly the files that raised an integrity error are still pending |
| `Migrations.SuccessIsFinal` | backend/migration_runner.py:141-145 | a run after a success without such errors changes and starts nothing |
| `Migrations.NeverStartedOnceRecorded` | backend/migration_runner.py:39-51 | over any number of runs, a migration once recorded is never started again |
| `Migrations.RunsKeepPrefix` | backend/migration_runner.py:127-164 | over any number of runs without such errors the table stays a prefix |
| `Migrations.MigrationRunner.RunMigration` | backend/migration_runner.py:62-124 | outcome by outcome: an upgrade and an object that is already there are recorded, an integrity error goes on unrecorded, a missing or failing upgrade stops, and one that does not load raises |
| `Migrations.MigrationRunner.RunAllMigrations` | backend/migration_runner.py:127-164 | the loop with its success flag computes the run |
| `Csrf.SplitJoin` | backend/security/csrf.py:94 | splitting undoes joining for parts without a separator |
| `Csrf.JoinSplit` | backend/security/csrf.py:94 | joining undoes splitting, and no part holds a separator |
| `Text.DecimalReadsBack` | backend/security/csrf.py:68 | reading a printed decimal number gives it back |
| `Text.ReadsIntIff` | backend/security/csrf.py:99 | a number is read from a run of digits with at most one sign before it, and from nothing else |
| `Text.ReadHexPlaces` | backend/services/crl_service.py:133 | base-16 reading of a text is that of its left part, moved up by the length of the right part, plus that of the right part |
| `Text.ReadHexSome` | backend/services/crl_service.py:132-143 | a serial text is read exactly when it is not empty and all of it are hexadecimal digits |
| `Text.ColonsArePassedOver` | backend/services/crl_service.py:133 | a colon anywhere in a serial is passed over |
| `Csrf.ValidForADay` | backend/security/csrf.py:61-124 | a printed token is valid for its user exactly from 0 to 86400 seconds after issue, and is refused for the right reason otherwise |
| `Csrf.AcceptedIffGenuine` | backend/security/csrf.py:83-124 | any token is accepted if and only if it has three parts, a timestamp within the last day and the signature of exactly these parts for this user |
| `Csrf.RefusalsInOrder` | backend/security/csrf.py:83-124 | for any token whatever, the first reason that applies: missing, not three parts, no number, expired, from the future, a signature that cannot be compared, a wrong signature |
| `Csrf.MovedSignatureIsRefused` | backend/security/csrf.py:108-118 | a signature moved to another timestamp, nonce or user is accepted only where the two messages collide |
| `Csrf.OneUserPerToken` | backend/security/csrf.py:108-118 | a token accepted for two users, at any two times, is accepted for one and the same unless the two messages their signatures are made of collide |
| `Csrf.RefusedForOthers` | backend/security/csrf.py:108-118 | within its day a printed token gets through for another user exactly where the signatures of the two messages are the same; otherwise, and at every other moment, it is refused for the right reason |

## Left out

- CrlRuns.DeltaCompletesBase: a revocation's time stamp and its commit are one step of the model; the code reads the
  clock and commits a moment later.
- CrlService.CrlService.RevokeCertificate: OCSP invalidation is modelled in `OcspService`, not here; a failing
  automatic CRL is not modelled. Renewal is an event of `CrlStore` and a method of `OcspService`, not a method here.
- CrlService.CrlService.Execute: what a check makes is dated once, where the code reads the clock for `this_update`
  and the database default for `created_at` a moment apart.
- CrlFreshness.FreshnessExactly: assumes that regenerations succeed, and that a delta check ends less than an hour,
  the unit of the delta intervals, after its base check.
- RateLimiter.AtMostRpmPerMinute: limits are fixed over the run, as in the code without `set_custom_limit`; time and
  tokens are real numbers, so floating-point rounding is not modelled.
- OcspService.OcspService.DetermineStatus: the reason of a revocation, which a response carries beside its date, is
  not modelled.
- Text.ReadHexSome: `int()`'s blanks, underscores and 0x prefix in a serial text are not modelled, so such a row is
  passed over here.
- OcspCache.NoGoodAfterInvalidation: says nothing of continuations that delete or renew a row or lift a hold; a
  certificate that is no longer revoked may rightly be called good.
- KeyEncryption.KeyStore.EncryptAllKeys: the reference and message inside an error list are not modelled, only how
  many.
- BackupTables.HoldersIntoEmpty: the columns restore does not read (validity dates, CDP and OCSP settings) come back
  as defaults, as in the code.
- BackupFormat.FromToHex: blanks inside hexadecimal text, which `bytes.fromhex` skips, are not modelled.
- DiscoveryTable.DiscoveryStore.SaveResults: `new_certs` is counted twice for some results by the code and is not
  modelled.
- DiscoveryGate.ScanGate.StartScan: interpreter-level exits between acquiring and launching are not modelled.
- Csrf.ValidForADay: the nonce is any text without a colon; `int()`'s blanks, underscores and foreign digits in forged
  timestamps are not modelled, so such a token is refused for another reason than in the code.
- Migrations.MigrationRunner.RunAllMigrations: what a migration does to the schema is not modelled, only how it ends.
- Anomaly.AnomalyDetector.RecordFailedLogin: the checks on successful logins (unusual hour, new device) are one-branch
  facts and are left out.
- CaHierarchy.RunKeepsForest: parent links are also written by the chain repair, which is modelled in `ChainRepair`,
  and by the smart import (`backend/services/smart_import/importer.py:250-285`), the OPNsense import
  (`backend/services/opnsense_import.py:557-563`) and a restore, which are not among the operations of the run.
- ChainRepair.ChainsEndIff: the merging of authorities with one key identifier after the re-chaining
  (`backend/services/ski_aki_backfill.py:143-196`) is not among the steps; of several authorities with the wanted key
  identifier the first row is taken, where the query names no order.
- AuditRace.VerifiesIffInStep: direct inserts and retention are steps of `AuditChain` only.
- CaHierarchy.CaService.CreateCertificate: templates, subject names and validity are not modelled, only the issuer's
  row and the reference.
- X.509, ASN.1, signing, HSMs, PBKDF2, AES-GCM, Fernet, SHA-256, HMAC, JSON and UTF-8 are functions with the laws they
  are relied on for, each only for the messages, lines and keys compared: inverses, no collision, another key does not
  open.
- Flask routes, WebSocket events, e-mail, files written beside database rows, TLS probing and DNS: their results are
  inputs of the model.
- Backup of ACME accounts, groups, roles, SSO, HSM, policies and similar tables: the same upsert again.
- Users' WebAuthn credentials and MFA flag are exported but not restored by the code; the MFA flag is in the model.
- Clocks that run backwards, process crashes in the middle of a commit, and automatic renewal.
