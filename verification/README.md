# Verified model of the OMP gateway, its consumers and its tools

This project models the parts of the Open Machine Protocol repository on which its trust claims
rest, and proves properties of the model for all inputs, all runs and all random choices.

| files | what they model |
|---|---|
| `Stores`, `Engines`, `Exporters` | the gateway's durable tables and the calls that change them |
| `Pipeline`, `PipelineNumbers`, `PipelineDelivery`, `PipelineSafety`, `PipelineCalls` | the gateway and its consumers as one state machine, with a crash possible between any two steps |
| `Consumers`, `ConsumerTables`, `ConsumerMeaning` | the reference consumer: validation, deduplication, alarms, projections, gaps |
| `JsonModel`, `Canonical`, `CanonicalParser`, `CanonicalForm`, `CanonicalStrings`, `Envelopes` | JSON values, the canonical text of a body, reading it back, envelopes |
| `Doubles`, `DoubleValues`, `NumberTexts`, `KeyOrders`, `CanonicalJcs` | doubles and their shortest decimals, how Python and ECMAScript write numbers, key orders, and the canonical text against RFC 8785 |
| `Validation` | the staged check that gateway, consumer and auditor share |
| `Crc`, `CrcErrors`, `CrcOrder`, `CrcPreset`, `Modbus`, `RegisterValues` | Modbus RTU and TCP framing, the CRC and what it detects, register values |
| `Simulators`, `SimulatedCycles`, `SimulatedDyeing`, `SimulatedBodies`, `SimulatedBooks` | the simulator's machines, and what a reader finds in the envelopes that they emit |
| `Amounts`, `Audits`, `AuditMeaning`, `AuditOrder`, `AuditBodies`, `SimulatedAudit` | the auditor, what its verdicts mean, that they do not depend on the order of the bundle, and that it accepts every simulated run |
| `StatsWindows`, `StatsMeaning` | the windowed statistics, in both copies |
| `NodeRing` | the ring buffer of the ESP32 node |
| `Registries`, `Reloads` | the machine registry and its hot reload |
| `Evidence` | what signatures and evidence hashes commit to |
| `Timestamps`, `Text`, `Wrappers` | text order of timestamps, decimal numerals, Option and Result |

Classes hold the state that the source updates in place; each of their methods is proved against
a function of the old state, and the lemmas are about those functions. Hashes, signatures, JSON
Schema evaluation and the parsing of a line are arbitrary functions, the same one wherever the
source uses the same one. I/O, links, probes, clocks and random choices are arbitrary values.

## What the model shows about the code

These promises do not hold for all inputs; the model keeps the code as it is and proves exactly
when they do.

- `canonicalize` is documented as RFC 8785. Its text is that of RFC 8785 if and only if every
  integer is below 10^21 and the shortest decimal of its double, every float is 10^21 or more in
  magnitude, and no two keys of one object come in another order by UTF-16 code unit than by code
  point (`CanonicalJcs.CanonicalIsJcsIff`). Bodies without floats, with integers up to 2^53 and keys
  in the basic plane meet this (`CanonicalJcs.OrdinaryIsJcs`). `{"a": 1.0}`, `{"a": 10**21}`, which
  is what the reading `1e21` of a serial line becomes, `{"a": 2**53 + 1}` and a pair of keys beyond
  and at the end of the basic plane do not. The text identifies the JSON value in any case.
- Cursors are keyed by the exporter's name, and every exporter of one type has the same name. Two
  of them lose data; nothing is lost in any run if and only if the names are distinct
  (`PipelineSafety.NoLossIffDistinctNames`, for a gateway that can buffer at least one body).
- The consumer's `runs` table is last-writer-wins. It is the same for every order of arrival if and
  only if summaries with the same run id agree (`ConsumerTables.RunsConfluentIffAgree`).
- The TCP parser can index past the end of a frame, exactly for the length fields that
  `Modbus.TcpIndexErrorIff` gives. The RTU parser cannot.
- The average of a statistics block is cut to an integer. It lies between the extremes if and only
  if a whole number lies between the least reading and the mean or, for a mean below zero, between
  the mean and the greatest (`StatsWindows.AverageWithinIff`). Integer readings always meet this;
  a single reading of one half does not.
- The consistency check passes over some claims: a summary that claims 0 kWh, or an infinity, which
  is what `1e999` is read as, passes against cited intervals of 100 kWh
  (`AuditMeaning.UncomparedClaimsPass`). Where the check passes, every claim that it compares is
  within one per cent of its intervals if and only if no claim is zero against a sum that is above a
  hundredth or not finite, no claim is NaN or an infinity, and no sum is NaN
  (`AuditMeaning.PassedClaimsHoldIff`). Where integrity passes too, only claims of zero are left,
  as a body with a number that is not finite has no checksum (`AuditMeaning.IntactClaimsHoldIff`).
- The node can deliver out of order. The order of what is delivered and still waiting is kept by an
  emission if and only if the new message does not overtake the ring (`NodeRing.OrderKeptIff`).
- A reload is documented to refuse an invalid registry. It ends the process instead if and only if
  the first adapter that cannot be imported has no module, or all can be imported and one that is
  to be stopped raises then, or one that is to be started cannot be built from its configuration
  (`Reloads.AppliedIff`).
- The signed message is documented as unambiguous. Other facts have the same message if and only if
  the gateway or the machine id holds a line break (`Evidence.AmbiguousIff`).
- Timestamps are compared as text. That is the order of time if and only if the numerals of the
  years compare as the years, which they do from the year 1000 on
  (`Timestamps.TextOrderIsTimeOrderIff`).
- `records_hash` does not depend on the order of the bundle if and only if a number never comes
  with two checksums (`Evidence.OrderDoesNotMatter`, `Evidence.OrderMatters`).
- A drain delivers everything past its cursor for every batch size but 0, for which it delivers
  nothing; a negative batch is no limit, as in SQLite (`Exporters.Exporter.Drain`).

## Model

| member | source | states |
|---|---|---|
| Stores.Store.NextSeq | gateway/omp/core/store.py:81-93 | the number is one past the machine's last, and only that counter changes |
| Stores.Store.Append | gateway/omp/core/store.py:96-104 | a row goes last under a row id never used before, or, where machine and number are taken, nothing changes |
| Stores.Store.ReadPending | gateway/omp/core/store.py:106-119 | the rows past the exporter's cursor, oldest first, up to the limit |
| Stores.PendingIs | gateway/omp/core/store.py:113-118 | a prefix of what is past the cursor, as long as the limit where there is more; a negative limit is none |
| Stores.RowsAfterMeaning | gateway/omp/core/store.py:113-118 | pending rows are exactly the buffered rows past the cursor, in row order |
| Stores.Store.Ack | gateway/omp/core/store.py:121-127 | moves that exporter's cursor and nothing else |
| Stores.Store.RecordDeadLetter | gateway/omp/core/store.py:227-235 | keeps the body with its refusal and nothing else |
| Stores.Store.DeleteExpired | gateway/omp/core/store.py:159-168 | deletes and counts exactly the expired rows |
| Stores.UnexpiredMeaning | gateway/omp/core/store.py:159-182 | what stays is past the bound or, with the disk within its own, not older than the cutoff |
| Stores.Store.Prune | gateway/omp/core/store.py:130-191 | the two-pass deletion leaves what one pass over both rules leaves, and logs it |
| Stores.SafeUptoMeaning | gateway/omp/core/store.py:152-154 | the bound is the smallest cursor of the configured exporters |
| Stores.AgeThenDisk | gateway/omp/core/store.py:159-182 | deleting by age and then by disk is deleting by disk |
| Stores.PruneExactly | gateway/omp/core/store.py:130-191 | a row goes if and only if every configured exporter has passed it and it was stored before the cutoff or the disk is over its bound; order stays; the log grows by the rows that went |
| Stores.PruneOutcomeIff | gateway/omp/core/store.py:143-191 | the answer: no exporters, an exporter that has delivered nothing, or the number of rows that went |
| Stores.PruneIsLogged | gateway/omp/core/store.py:159-188 | an entry with the time, the number and the rules that applied if and only if something went; otherwise nothing changes |
| Stores.RetentionIsKept | gateway/omp/core/store.py:159-168 | with the disk within its bound nothing stored within the retention goes, nor anything without a time; with a row goes every older one that is delivered as far |
| Stores.PruneIgnoresOthers | gateway/omp/core/store.py:143-145 | cursors of exporters that are not configured do not matter |
| Stores.BlocksKeepConsistent | gateway/omp/core/store.py:28-61 | every atomic block keeps the schema's constraints |
| Engines.Engine.Process | gateway/omp/core/engine.py:40-66 | the call takes the next number and buffers the envelope if and only if the schema is of the core, every number can be canonicalised and the envelope has no violation; the envelope field by field, or one dead letter with a true cause; the number never collides |
| Engines.JudgeIff | gateway/omp/core/engine.py:45-65 | the envelope bears the event's time or else the call's, the checksum of its body and the signer's answer; a refusal names what is wrong |
| Engines.ProcessMeaning | gateway/omp/core/engine.py:40-66 | one call: next number, then one row or one dead letter, and nothing else |
| Exporters.RestAfterDeliveries | gateway/omp/core/store.py:106-127 | acknowledging the first rows leaves exactly the others pending |
| Exporters.Exporter.DeliverBatch | gateway/omp/exporters/base.py:32-35 | rows are published and acknowledged one by one up to the call that fails |
| Exporters.Exporter.Drain | gateway/omp/exporters/base.py:26-35 | delivers everything past the cursor once and in order, whatever the batch size; if the k-th call fails, exactly the first k-1 are delivered and acknowledged |
| PipelineCalls.ProcessIsARun | gateway/omp/core/engine.py:40-66 | a whole call of process is two steps of the state machine |
| PipelineCalls.DrainIsARun | gateway/omp/exporters/base.py:26-35 | what a drain leaves, complete or cut short, is reached by steps of the state machine |
| PipelineNumbers.EveryNumberIsAccounted | gateway/omp/core/store.py:81-93 | over every run the numbers handed out are 1 up to the counter, each appended, refused, in flight or lost to a crash, and only one of these, once |
| PipelineNumbers.CountersNeverGoBack | gateway/omp/core/store.py:81-93 | no step, crash included, takes a counter back |
| Pipeline.CrashForgets | gateway/omp/core/engine.py:40-66 | a crash forgets calls in flight and the batch under way, and nothing that is durable |
| PipelineSafety.NumbersNeverCollide | gateway/omp/core/engine.py:43-65 | the UNIQUE constraint never refuses an envelope in flight |
| PipelineDelivery.UndeliveredIsTail | gateway/omp/core/store.py:106-119 | in every reachable state, what is pending is everything appended past the cursor, in order |
| PipelineDelivery.StepKeepsDelivering | gateway/omp/core/store.py:96-191 | every step keeps: rows numbered for good, kept until every cursor passed, passed only if given |
| PipelineSafety.EveryRunIsSound | gateway/omp/core/store.py:63-191 | the whole invariant holds over every run |
| PipelineSafety.PruneKeepsPending | gateway/omp/core/store.py:130-191 | in every reachable state, pruning takes nothing that is pending for some exporter |
| PipelineSafety.PruneKeepsYoung | gateway/omp/core/store.py:159-168 | nor, with the disk within its bound, anything within the retention |
| PipelineSafety.NoLossOverEveryRun | gateway/omp/core/store.py:34-191 | every envelope ever appended was published to each exporter or waits past its cursor; new row ids stay above every cursor; appended = buffered + pruned |
| PipelineSafety.DrainedMeansGiven | gateway/omp/exporters/base.py:26-35 | an exporter with nothing pending was given everything ever appended |
| PipelineSafety.SharedNameLoses | gateway/omp/core/store.py:106-127 | two exporters under one name: a run that loses an envelope |
| PipelineSafety.NoLossIffDistinctNames | gateway/omp/cli.py:512-538 | for a gateway that can buffer some body, nothing is lost in any run if and only if exporter names are distinct |
| PipelineSafety.UnderstandingExists | examples/platform-ingest-reference/ingest.py:69-84 | for whatever rows there are a consumer and a way to write that understand each other |
| PipelineSafety.ExactlyOnceAtConsumer | examples/platform-ingest-reference/ingest.py:65-107 | with crashes, redelivery and reordering the consumer holds each received envelope once, raises no alarm and quarantines nothing |
| PipelineSafety.CompleteDelivery | examples/platform-ingest-reference/ingest.py:86-107 | once all is received, each appended envelope is stored exactly once |
| PipelineSafety.ExactlyOnceFromSeveral | examples/platform-ingest-reference/ingest.py:65-107 | the same for lines of any number of gateways with ids of their own, and of several destinations of one, arriving mixed in any order and number |
| PipelineSafety.GapsIff | examples/platform-ingest-reference/ingest.py:143-155 | a number is reported missing if and only if a higher one is held and it was refused, lost, is in flight, or was buffered and has not arrived |
| Consumers.Consumer.IngestLine | examples/platform-ingest-reference/ingest.py:65-107 | the six stages leave the tables and counters that the specification gives |
| Consumers.Consumer.NoteUnknownVocabulary | examples/platform-ingest-reference/ingest.py:109-120 | counts exactly event types that the profile does not know |
| Consumers.Consumer.Quarantine | examples/platform-ingest-reference/ingest.py:122-125 | keeps the line with its reason |
| Consumers.Consumer.Project | examples/platform-ingest-reference/ingest.py:127-140 | announcements are never overwritten, summaries replace those of their run |
| Consumers.Consumer.MissingOf | examples/platform-ingest-reference/ingest.py:152-152 | exactly the numbers below the highest held that are not held, in order |
| Consumers.Consumer.Gaps | examples/platform-ingest-reference/ingest.py:143-155 | the report names exactly the machines with gaps and exactly their missing numbers, in order |
| Consumers.GapReportUnique | examples/platform-ingest-reference/ingest.py:143-155 | the stored envelopes determine the report |
| ConsumerMeaning.AcceptedIff | examples/platform-ingest-reference/ingest.py:69-84 | a line is accepted if and only if it is an envelope that both schemas accept, with the checksum of its body, and that fits its profile but for unknown vocabulary |
| ConsumerMeaning.QuarantineIs | examples/platform-ingest-reference/ingest.py:69-84 | the quarantine holds exactly the lines that were not accepted, each with a reason that is true of it |
| ConsumerMeaning.VocabularyIsCounted | examples/platform-ingest-reference/ingest.py:109-120 | the counter and the set are those of the accepted events whose type is neither in the core nor in their profile |
| ConsumerTables.TablesFollowAccepted | examples/platform-ingest-reference/ingest.py:65-107 | the tables depend on the accepted envelopes only |
| ConsumerTables.LinesAreAccounted | examples/platform-ingest-reference/ingest.py:65-107 | stored + duplicates + alarms + quarantined = non-blank lines, and the counters are the table sizes |
| ConsumerTables.StoredIsNeverOverwritten | examples/platform-ingest-reference/ingest.py:86-105 | no later line changes a stored envelope |
| ConsumerTables.RawIsFirstArrivals | examples/platform-ingest-reference/ingest.py:86-105 | the stored envelope of a key is the first accepted one |
| ConsumerTables.AlarmsShowDisagreement | examples/platform-ingest-reference/ingest.py:94-98 | every alarm shows the stored envelope and a received one of its key with another checksum |
| ConsumerTables.AlarmIffConflict | examples/platform-ingest-reference/ingest.py:90-100 | an alarm is raised if and only if two accepted envelopes of one key differ in checksum |
| ConsumerTables.ProjectionsFollowRaw | examples/platform-ingest-reference/ingest.py:127-140 | projections show only stored envelopes, and all of them |
| ConsumerTables.RunsTableIff | examples/platform-ingest-reference/ingest.py:135-140 | each gateway, machine and run id has a row of its own if and only if a summary of it is stored; the row shows outcome and body of one of them |
| ConsumerTables.RawIsConfluent | examples/platform-ingest-reference/ingest.py:65-107 | where a key determines the envelope, any order and duplication gives the same raw and machines tables |
| ConsumerTables.RunsAreConfluent | examples/platform-ingest-reference/ingest.py:135-140 | and the same runs table where summaries of a run agree |
| ConsumerTables.RunsConfluentIffAgree | examples/platform-ingest-reference/ingest.py:135-140 | the runs table is independent of order if and only if they do |
| ConsumerTables.ConsumerIsConfluent | examples/platform-ingest-reference/ingest.py:65-155 | consumers fed the same lines in any order and number have the same tables and the same gaps; the same runs where summaries agree, as where run ids are unique per machine |
| CanonicalForm.CanonicalizesIff | tools/omp_tools/envelope.py:19-40 | a body is refused if and only if a number at some depth is not finite or not whole |
| CanonicalForm.RefusalIsGenuine | tools/omp_tools/envelope.py:19-35 | the refusal names a kind of number that the body has |
| CanonicalForm.ParsePrint | tools/omp_tools/envelope.py:38-40 | an independent parser undoes the compact printer |
| CanonicalForm.TokensReadBack | tools/omp_tools/envelope.py:38-40 | every number, float or integer, is written so that reading it gives it back |
| CanonicalStrings.PrintIsJcs | tools/omp_tools/envelope.py:38-40 | strings are escaped and values put together by the rules of sections 3.2.1 and 3.2.2 of RFC 8785 |
| CanonicalStrings.PlainIff | tools/omp_tools/envelope.py:38-40 | a string stands as it is if and only if it has no quote, backslash or control character |
| CanonicalStrings.QuoteIsShortest | tools/omp_tools/envelope.py:38-40 | no text that reads as the string is shorter |
| CanonicalForm.SortFieldsMeaning | tools/omp_tools/envelope.py:40-40 | sorting keeps the entries and orders the keys, at every depth |
| CanonicalForm.CanonicalTextReadsBack | tools/omp_tools/envelope.py:38-40 | reading the canonical text gives the body, its keys in order |
| CanonicalForm.CanonicalTextIdentifies | tools/omp_tools/envelope.py:38-40 | two bodies have one canonical text if and only if they are the same JSON value, whatever the order of their keys at any depth |
| Envelopes.ChecksumIff | tools/omp_tools/envelope.py:43-44 | the checksum is the hash of the canonical text, and there is one if and only if every number is finite and whole |
| Envelopes.ChecksumIdentifies | tools/omp_tools/envelope.py:43-44 | one value has one checksum, and a hash that never collides tells values apart |
| Doubles.ShortestReads | tools/omp_tools/envelope.py:40-40 | the decimal that is written for a double reads as that double |
| Doubles.ShortestIsShortest | tools/omp_tools/envelope.py:40-40 | no decimal that reads as the double ends in more zeros, and none that ends in as many is nearer |
| DoubleValues.IsDoubleIff | tools/omp_tools/envelope.py:19-29 | the whole doubles are exactly the numbers of 53 significant bits times a power of two |
| DoubleValues.RoundIsNearest | tools/omp_tools/envelope.py:40-40 | no double is nearer to a number than the one that it is rounded to |
| DoubleValues.HalvesGoToEven | tools/omp_tools/envelope.py:40-40 | halfway, the even mantissa is taken |
| DoubleValues.PythonTextShape | tools/omp_tools/envelope.py:40-40 | a whole float is written in full with .0 up to 16 digits, and beyond with an exponent and a mantissa without zeros at its end |
| NumberTexts.EcmaTextIs | tools/omp_tools/envelope.py:40-40 | Number::toString writes up to 21 digits in full, and beyond as Python does |
| Text.LessIff | tools/omp_tools/envelope.py:40-40 | keys are ordered by the first code point in which they differ |
| KeyOrders.LessUnitsIff | tools/omp_tools/envelope.py:40-40 | those of RFC 8785 by the first UTF-16 code unit |
| KeyOrders.SurrogatesIs | tools/omp_tools/envelope.py:40-40 | a character beyond the basic plane is the pair of surrogates that holds its number |
| KeyOrders.BasicPlaneOrder | tools/omp_tools/envelope.py:40-40 | without characters beyond the basic plane, code points and UTF-16 code units order strings alike |
| CanonicalJcs.IntegerAgreesIff | tools/omp_tools/envelope.py:19-40 | an integer's numeral is that of ECMAScript if and only if it is below 10^21 and the shortest decimal of its double |
| CanonicalJcs.WholeFloatAgreesIff | tools/omp_tools/envelope.py:19-40 | Python and ECMAScript write a whole float alike if and only if it is 10^21 or more in magnitude |
| CanonicalJcs.CanonicalIsJcsIff | tools/omp_tools/envelope.py:19-40 | the text is that of section 3.2 of RFC 8785 if and only if all numbers are such and no two keys of one object change places |
| CanonicalJcs.OrdinaryIsJcs | tools/omp_tools/envelope.py:19-40 | without floats, with integers up to 2^53 and keys in the basic plane, it is |
| CanonicalJcs.IntegralFloatDiffersFromJcs | tools/omp_tools/envelope.py:19-40 | the body with 1.0 passes the number check and is printed otherwise |
| CanonicalJcs.LargeIntegerDiffersFromJcs | tools/omp_tools/envelope.py:19-40 | so does the body with the integer 10^21 |
| CanonicalJcs.ImpreciseIntegerDiffersFromJcs | tools/omp_tools/envelope.py:19-40 | so does the body with the integer 2^53 + 1 |
| CanonicalJcs.KeyOrderDiffersFromJcs | tools/omp_tools/envelope.py:40-40 | so does an object with the keys U+FB33 and U+1F600 |
| Validation.CollectProfileErrors | tools/omp_tools/specload.py:93-145 | the accumulated list is that of the specification, for events and for every phase in order |
| Validation.ForwardIsStrictWithoutNewVocabulary | tools/omp_tools/validate.py:19-32 | forward-compatible errors are the strict ones, in order, less those about unknown event types and phases |
| Validation.ConsumerAcceptsIff | tools/omp_tools/specload.py:93-145 | the consumer accepts if and only if the gateway would object to nothing but new vocabulary |
| Validation.ValidIff | tools/omp_tools/validate.py:19-32 | valid if and only if both schemas accept it, the checksum is that of the body, and it fits the profile that it declares, if that is known |
| Validation.ViolationsAreGenuine | tools/omp_tools/validate.py:19-32 | each violation that is reported is one that the envelope has |
| Validation.ValidChecksum | tools/omp_tools/validate.py:27-31 | a valid envelope carries the checksum of its body |
| Crc.Crc16 | adapters/generic-modbus/protocol.py:55-61 | the nested loops compute the specified register (section 6.2.2 of MODBUS over Serial Line V1.02) |
| Crc.FeedAllIsSerial | adapters/generic-modbus/protocol.py:55-61 | the byte-wise register is the bit-serial one |
| CrcErrors.ShiftIsABijection | adapters/generic-modbus/protocol.py:60-60 | a shift step loses nothing |
| CrcErrors.ShiftKeepsParity | adapters/generic-modbus/protocol.py:60-60 | a shift step keeps bit parity |
| CrcErrors.CheckedIffZero | adapters/generic-modbus/protocol.py:72-74 | the comparison passes if and only if the CRC of the whole frame is 0 |
| CrcErrors.BurstsAreDetected | adapters/generic-modbus/protocol.py:69-74 | damage within 16 consecutive bits never passes |
| CrcErrors.AdjacentBytesAreDetected | adapters/generic-modbus/protocol.py:69-74 | damage within two adjacent bytes never passes |
| CrcErrors.PassesIffErrorIsMultiple | adapters/generic-modbus/protocol.py:55-74 | an altered frame passes if and only if the flipped bits alone leave a cleared register at 0 |
| CrcErrors.OddErrorsAreDetected | adapters/generic-modbus/protocol.py:69-74 | an odd number of flipped bits never passes |
| CrcOrder.SquareOfPower | adapters/generic-modbus/protocol.py:60-60 | squaring doubles the exponent of x modulo the polynomial |
| CrcOrder.PeriodIff | adapters/generic-modbus/protocol.py:60-60 | the powers of x repeat after exactly 32767 shifts |
| CrcOrder.FewErrorsAreDetected | adapters/generic-modbus/protocol.py:69-74 | one, two or three flipped bits in a frame of up to 4095 bytes never pass |
| CrcPreset.CheckOfExample | adapters/generic-modbus/protocol.py:55-61 | the check of 02 07 is 1241, the example of the standard |
| CrcPreset.PresetComplements | adapters/generic-modbus/protocol.py:56-56 | the preset is a complement of the first sixteen bits |
| CrcPreset.PresetFixedIff | adapters/generic-modbus/protocol.py:56-61 | the preset comes back after a number of shifts if and only if the powers of x do |
| CrcPreset.LeadingZerosPassIff | adapters/generic-modbus/protocol.py:55-61 | bytes of zero before a frame that passes are unnoticed if and only if their number is a multiple of 32767 |
| CrcPreset.LeadingZeroIsDetected | adapters/generic-modbus/protocol.py:55-61 | so one byte of zero always is noticed |
| Modbus.PduAcceptsExactly | adapters/generic-modbus/protocol.py:81-91 | accepted if and only if the bytes begin with a response of that function with those registers |
| Modbus.RequestIsChecked | adapters/generic-modbus/protocol.py:64-66 | every RTU request carries a right check |
| Modbus.RtuAcceptsExactly | adapters/generic-modbus/protocol.py:69-78 | accepted if and only if the whole frame leaves the register at 0 and what is under the check begins with a response of that unit and function with those registers |
| Modbus.RtuRoundTrip | adapters/generic-modbus/protocol.py:69-91 | parsing undoes the standard's response, up to 127 registers |
| Modbus.RtuException | adapters/generic-modbus/protocol.py:83-84 | an exception response is reported with its code |
| Modbus.RtuIsTotal | adapters/generic-modbus/protocol.py:69-91 | no byte string makes the RTU parser index past the end |
| Modbus.RtuReports | adapters/generic-modbus/protocol.py:69-91 | what is reported is the first thing that is wrong: length, check, unit, exception, function, byte count |
| Modbus.RtuExample | adapters/generic-modbus/protocol.py:64-91 | a request and an answer with their bytes and checks written out |
| Modbus.BurstIsRejected | adapters/generic-modbus/protocol.py:69-74 | a frame that differs from an accepted one within 16 bits is a CRC mismatch |
| Modbus.AdjacentBytesAreRejected | adapters/generic-modbus/protocol.py:69-74 | so is one that differs within two adjacent bytes |
| Modbus.FlipsAreRejected | adapters/generic-modbus/protocol.py:69-74 | so is one with an odd number of flipped bits, or up to three in up to 4095 bytes |
| Modbus.TcpIndexErrorIff | adapters/generic-modbus/protocol.py:43-51 | the TCP parser indexes past the end exactly for these length fields and function codes |
| Modbus.TcpIndexErrors | adapters/generic-modbus/protocol.py:43-51 | two frames of nine bytes on which it does |
| Modbus.TcpAcceptsExactly | adapters/generic-modbus/protocol.py:43-51 | accepted if and only if transaction and protocol match and a response begins there that the length field covers |
| Modbus.TcpReports | adapters/generic-modbus/protocol.py:43-51 | what is reported is the first thing that is wrong: length, transaction, protocol, then the response |
| Modbus.TcpExample | adapters/generic-modbus/protocol.py:36-51 | a request and an answer with their bytes written out |
| Modbus.TcpRoundTrip | adapters/generic-modbus/protocol.py:43-51 | parsing undoes the standard's response with a matching header |
| RegisterValues.DecodeIffHolds | adapters/generic-modbus/protocol.py:95-107 | the decoded number is the one whose two's complement words the registers hold, and no other |
| RegisterValues.DecodeExactly | adapters/generic-modbus/protocol.py:95-107 | answers, errors, exact scaling, and an int exactly for a whole number |
| RegisterValues.OnlyFirstAreRead | adapters/generic-modbus/protocol.py:95-105 | registers beyond those of the type are not looked at |
| RegisterValues.ValueRoundTrip | adapters/generic-modbus/protocol.py:43-107 | a u16, s16, u32 or swapped u32 survives RTU and TCP framing and decoding |
| Simulators.Machine.Emit | tools/omp_tools/simulate.py:48-59 | one more envelope, numbered next, with its checksum |
| Simulators.EmittingNeverFails | tools/omp_tools/simulate.py:48-79 | every body that a machine emits can be canonicalised |
| SimulatedCycles.RunOn | tools/omp_tools/simulate.py:110-134 | a cycle advances time by its own duration and is counted next, and may stop the machine |
| SimulatedCycles.Resume | tools/omp_tools/simulate.py:135-147 | a pause ends with a start that gives its duration |
| SimulatedCycles.RecordEnergy | tools/omp_tools/simulate.py:148-163 | an energy interval is written only after an hour, and the next begins where it ends |
| SimulatedCycles.RunCyclicMachine | tools/omp_tools/simulate.py:99-179 | the loop ends, and the run counts cycles 1 to n with n in the summary, resumes every stop, keeps time, abuts its energy intervals, and cites exactly run_start to run_end |
| SimulatedCycles.BooksClose | tools/omp_tools/simulate.py:164-179 | a closed run keeps all of its books |
| SimulatedDyeing.RunPhase | tools/omp_tools/simulate.py:201-244 | the records of one phase, its duration, and the bath that it finds and leaves |
| SimulatedDyeing.BatchGrows | tools/omp_tools/simulate.py:201-244 | one more phase keeps the batch in the order of the plan |
| SimulatedDyeing.RunDyeMachine | tools/omp_tools/simulate.py:182-273 | seven phases open and close one at a time, rows abut and follow the plan's shares, one block of temperatures covers each phase, and the summary cites exactly run_start to run_end |
| SimulatedBooks.CyclicRunKeepsBooks | tools/omp_tools/simulate.py:99-179 | the same in the envelopes: the n-th cycle reads as n and took as long as it reads, stops are resumed, energy intervals abut, the summary counts the cycles and cites the run |
| SimulatedBooks.DyeRunKeepsBooks | tools/omp_tools/simulate.py:182-273 | the same in the envelopes: seven named phases one at a time, each for its share, blocks and rows with those bounds, one energy reading over all, the quantities |
| Audits.CheckIntegrity | tools/omp_tools/audit.py:97-108 | the loop gives the specified verdict and findings |
| Audits.SumEnergy | tools/omp_tools/audit.py:164-168 | totals per metric, NaN and infinities included, metrics in order of first appearance |
| Audits.CompareEnergy | tools/omp_tools/audit.py:169-178 | findings and number of comparisons of the claimed totals, NaN and infinities included |
| Audits.CheckConsistency | tools/omp_tools/audit.py:134-200 | the three comparisons give the specified verdict and findings |
| Audits.CheckConformance | tools/omp_tools/audit.py:203-213 | the loop gives the specified verdict and findings |
| AuditMeaning.CompletenessIff | tools/omp_tools/audit.py:75-94 | passes if and only if the bundle holds every cited number of that machine; not evaluated exactly when nothing is cited |
| AuditMeaning.IntegrityIff | tools/omp_tools/audit.py:97-108 | passes if and only if every cited checksum is that of its body |
| AuditMeaning.AuthenticityIff | tools/omp_tools/audit.py:111-131 | passes if and only if there is a key, something is signed and every signature verifies; never passes unchecked |
| AuditMeaning.PhaseFindingsIff | tools/omp_tools/audit.py:147-160 | no finding if and only if the phases declared and the phases begun are the same, where there are both |
| AuditMeaning.ConsistencyIff | tools/omp_tools/audit.py:134-200 | passes if and only if something is comparable, phases and boundaries agree, and each claim is within one per cent of its total, or is zero, or is not finite, or its total is NaN; not evaluated exactly when nothing is comparable |
| AuditMeaning.PassedClaimsHoldIff | tools/omp_tools/audit.py:169-178 | of a passed check, all claims are within one per cent if and only if none is zero against a sum above a hundredth or not finite, none is NaN or infinite, and no sum is NaN |
| AuditMeaning.IntactClaimsHoldIff | tools/omp_tools/audit.py:97-178 | with integrity passed too, if and only if none is zero against a sum above a hundredth |
| AuditMeaning.UncomparedClaimsPass | tools/omp_tools/audit.py:172-174 | summaries that claim 0, NaN or an infinity of kWh pass against a cited interval of 100 kWh |
| Amounts.DiscrepantIff | tools/omp_tools/audit.py:173-174 | the comparison, in the arithmetic of floats with NaN and infinities, reports exactly what is not within one per cent and can be compared |
| AuditMeaning.ConformanceIff | tools/omp_tools/audit.py:203-213 | passes if and only if every cited envelope is valid |
| AuditMeaning.ConformantIsIntact | tools/omp_tools/audit.py:97-213 | conformance implies integrity |
| AuditBodies.SummaryReadIff | tools/omp_tools/audit.py:140-170 | a summary is read if and only if its phases, quantities and range have this shape |
| AuditBodies.SummaryIs | tools/omp_tools/audit.py:140-170 | outcome, names, quantities and range are those that the body gives, the last of a name where it comes twice |
| AuditBodies.CitedIff | tools/omp_tools/audit.py:223-231 | cited are the envelopes of the run's machine in the range, and the summary |
| AuditBodies.SelectedIff | tools/omp_tools/audit.py:57-71 | the run is the only summary in the bundle, of the run that is asked for if one is |
| AuditBodies.ConsistentIff | tools/omp_tools/audit.py:134-200 | consistency in terms of the bodies: events, readings added up, claims and boundaries |
| AuditBodies.ReportIs | tools/omp_tools/audit.py:217-240 | the five verdicts of a report, read from the bundle |
| AuditBodies.MissingIsReported | tools/omp_tools/audit.py:85-92 | the first twenty missing numbers are shown, in order, and the others counted |
| AuditBodies.IntegrityFindingsAreGenuine | tools/omp_tools/audit.py:97-107 | at most twenty findings, each of a cited envelope with that fault |
| AuditBodies.UnsignedAreCounted | tools/omp_tools/audit.py:123-131 | a check that passes counts the unsigned envelopes |
| AuditBodies.ForgedAreShown | tools/omp_tools/audit.py:123-127 | one that fails names signatures that do not verify, at most twenty |
| AuditBodies.ConformanceFindingsAreGenuine | tools/omp_tools/audit.py:203-211 | at most twenty findings, each with a violation that the envelope has |
| AuditOrder.SelectRunIff | tools/omp_tools/audit.py:57-71 | a run is selected if and only if the bundle holds one summary of it and no other that matches |
| AuditOrder.AuditIgnoresOrder | tools/omp_tools/audit.py:217-240 | all verdicts, and the error if there is one, are the same for every order of the bundle, energy summed exactly, NaN and infinities included |
| SimulatedAudit.CyclicRunIsRunLog | tools/omp_tools/simulate.py:99-179 | a cyclic run is citable: its range is run_start to run_end |
| SimulatedAudit.DyeRunIsRunLog | tools/omp_tools/simulate.py:182-273 | a batch is citable, and its phases are those started |
| SimulatedAudit.SummaryRead | tools/omp_tools/audit.py:134-170 | the auditor reads the summary's range, phases and quantities as written |
| SimulatedAudit.SimulatedRunPasses | tools/omp_tools/audit.py:217-240 | the audit finds the run in any bundle and passes completeness, integrity and consistency |
| SimulatedAudit.CyclicRunPasses | tools/omp_tools/simulate.py:99-179 | every cyclic run is accepted, whatever the random choices |
| SimulatedAudit.DyeRunPasses | tools/omp_tools/simulate.py:182-273 | every batch is accepted, whatever the random choices |
| StatsWindows.ExtremesAreExact | adapters/generic-serial/protocol.py:98-99 | minimum and maximum are readings, and none is beyond them |
| StatsWindows.AverageWithinIff | adapters/generic-serial/protocol.py:115-115 | the average lies between the extremes if and only if a whole number lies between an extreme and the mean, on the side of zero |
| StatsWindows.AverageBetween | adapters/generic-serial/protocol.py:115-115 | so it does for integer readings, and in any case between the extremes cut to integers |
| StatsWindows.FractionsEscape | adapters/generic-serial/protocol.py:115-115 | fractional readings with an average below them all |
| StatsMeaning.BlockIs | adapters/generic-serial/protocol.py:104-118 | a block names channel and unit, begins with its first sample, counts, and gives least, greatest and the mean with its fraction cut off |
| StatsWindows.NothingIsLost | adapters/generic-serial/protocol.py:86-104 | blocks and open segments are, channel by channel, the samples so far |
| StatsWindows.BlocksPartitionSamples | adapters/generic-serial/protocol.py:86-121 | after a flush a channel's blocks are its samples, each once and in order |
| StatsWindows.CountsAddUp | adapters/generic-serial/protocol.py:86-121 | their counts add up to its number of samples |
| StatsWindows.ClosedIsWellClosed | adapters/generic-serial/protocol.py:98-104 | a block covers the samples within the window of its first, and the one that is not |
| StatsMeaning.ChannelsInOrderOfOpening | adapters/generic-serial/protocol.py:90-121 | channels are flushed in the order in which their open segments began |
| StatsWindows.StatsAggregator.Add | adapters/generic-serial/protocol.py:86-104 | counts the sample in its channel's segment and returns a block exactly when it closes |
| StatsWindows.StatsAggregator.Close | adapters/generic-serial/protocol.py:104-118 | the block of the segment, which is then gone |
| StatsWindows.StatsAggregator.Flush | adapters/generic-serial/protocol.py:120-121 | the blocks of all open segments in order of opening |
| StatsWindows.ModbusStats.Add | adapters/generic-modbus/adapter.py:30-42 | the same as the serial copy |
| StatsWindows.ModbusStats.Close | adapters/generic-modbus/adapter.py:43-49 | the same as the serial copy |
| StatsWindows.ModbusStats.Flush | adapters/generic-modbus/adapter.py:51-52 | the same as the serial copy |
| NodeRing.Firmware.RingPush | retrofit/esp32-ct-clamp/firmware/src/main.cpp:149-157 | the circular array holds the messages in order, the oldest dropped when full, and the drop counted modulo 2^32 |
| NodeRing.Firmware.Replay | retrofit/esp32-ct-clamp/firmware/src/main.cpp:179-183 | a prefix of the ring leaves, oldest first |
| NodeRing.Firmware.MqttEnsure | retrofit/esp32-ct-clamp/firmware/src/main.cpp:164-185 | connects, reports the drops so far, and replays; nothing is replayed without a report |
| NodeRing.Firmware.EmitOrBuffer | retrofit/esp32-ct-clamp/firmware/src/main.cpp:187-193 | after a replay the message is delivered or pushed |
| NodeRing.RunConserves | retrofit/esp32-ct-clamp/firmware/src/main.cpp:145-193 | over every run, emitted = delivered + dropped + in the ring, message by message |
| NodeRing.RingIsSuffix | retrofit/esp32-ct-clamp/firmware/src/main.cpp:145-193 | over every run, the ring holds the messages pushed last, in the order in which they were pushed |
| NodeRing.OfflineKeepsNewest | retrofit/esp32-ct-clamp/firmware/src/main.cpp:149-157 | while the link is down the ring holds the newest messages in order, up to 64 |
| NodeRing.OrderKeptIff | retrofit/esp32-ct-clamp/firmware/src/main.cpp:164-193 | order is kept if and only if the new message does not overtake the ring |
| NodeRing.OrderIsNotKept | retrofit/esp32-ct-clamp/firmware/src/main.cpp:179-193 | a run that delivers out of order |
| Registries.LoadRegistry | gateway/omp/core/registry.py:16-40 | accepts if and only if every machine is sound and ids are distinct, and refuses at the first offender |
| Registries.FaultIff | gateway/omp/core/registry.py:22-38 | a machine is at fault if and only if it spoils the machines before it |
| Registries.AcceptableIff | gateway/omp/core/registry.py:10-38 | acceptable if and only if each machine has an id of that form, an adapter and, with a location, a site, and ids are distinct |
| Registries.FaultIs | gateway/omp/core/registry.py:22-38 | which fault is reported |
| Registries.SpecIs | gateway/omp/core/registry.py:39-40 | a machine is taken as written; a missing configuration is an empty one |
| Reloads.Gateway.StartMachine | gateway/omp/cli.py:381-419 | a machine runs on a new adapter, or, where its probe fails, nothing runs, or, where its adapter cannot be built, the exception gets out |
| Reloads.Gateway.StopMachine | gateway/omp/cli.py:421-425 | the machine's entry goes and its adapter is stopped once; what that raises gets out |
| Reloads.Gateway.Reconcile | gateway/omp/cli.py:452-463 | unless an adapter raises when it is stopped or built, running = wanted less failed starts, with the wanted entries; unchanged machines keep their adapter; removed and changed ones stop once |
| Reloads.Gateway.ApplyReload | gateway/omp/cli.py:435-466 | the same when applied; when refused nothing changes |
| Reloads.SecondReloadRetriesFailures | gateway/omp/cli.py:452-463 | a second reload touches only the failed starts |
| Reloads.ReloadDoes | gateway/omp/cli.py:452-463 | machine by machine: unchanged ones run on untouched, changed and new ones on new adapters or failed, nothing else runs, and exactly the adapters left behind stopped, once |
| Reloads.AppliedIff | gateway/omp/cli.py:384-451 | applied if and only if the registry is acceptable, every adapter loads, each to be stopped stops without an exception and each to be started can be built; exactly when the process ends instead |
| Reloads.SmoothIff | gateway/omp/cli.py:452-463 | what is stopped are the machines not wanted as they run, what is built those not running as wanted |
| Reloads.MissingAdapterExits | gateway/omp/cli.py:29-36 | a registry of one machine whose adapter has no module ends the process |
| Reloads.EmptyRegistryCrashesIff | gateway/omp/cli.py:421-458 | a registry without machines ends the process if and only if a running adapter raises when it is stopped |
| Evidence.SigInputReadsBack | gateway/omp/core/keys.py:32-33 | the message reads back line by line |
| Evidence.SigInputExample | gateway/omp/core/keys.py:32-33 | one message, written out |
| Evidence.SigInputInjective | gateway/omp/core/keys.py:32-33 | ids of one line: different facts are different messages |
| Evidence.LineBreakIsAmbiguous | gateway/omp/core/keys.py:32-33 | an id with a line break: another tuple with the same message |
| Evidence.AmbiguousIff | gateway/omp/core/keys.py:32-33 | with a checksum of one line, another tuple has the same message if and only if an id holds a line break |
| Evidence.SortIs | tools/omp_tools/audit.py:51-51 | the sort keeps the envelopes, orders them, and is stable |
| Evidence.RecordsTextInjective | tools/omp_tools/audit.py:51-54 | the hashed text is equal if and only if the ordered checksum lists are |
| Evidence.RecordsTextSlices | tools/omp_tools/audit.py:51-54 | the text is the checksums in the order of numbers, end to end |
| Evidence.OrderDoesNotMatter | tools/omp_tools/audit.py:45-54 | the text is the same for every order of a bundle with one checksum per number |
| Evidence.OrderMatters | tools/omp_tools/audit.py:45-54 | otherwise two orders of it give different texts |
| Timestamps.TextOrderIsTimeOrderIff | gateway/omp/core/store.py:18-26 | timestamps compare as text as in time if and only if the numerals of their years compare as the years |
| Timestamps.TextOrderIsTimeOrder | gateway/omp/core/store.py:18-26 | from the year 1000 on they do |
| Timestamps.IsoTextIs | gateway/omp/core/store.py:18-21 | the text digit by digit |
| Timestamps.TextOrderIsNotTimeOrder | gateway/omp/core/store.py:18-26 | the last moment of the year 999 against the first of the year 1000 |

## Left out

- SHA-256, Ed25519, base64, key files: any function; only what they are applied to is modelled.
- JSON Schema evaluation and the parsing of a line into an envelope: arbitrary functions, shared by gateway and consumer; the end-to-end results assume that the envelopes that are received read back as they were written (`PipelineSafety.Understands`).
- SQLite: each locked transaction is one atomic and durable step; the database being over its size bound is an arbitrary boolean.
- Stores.Store.Prune: does not model `oldest_seq` and `newest_seq` of the log, which cover the age rule only, nor the wording of the reason.
- Stores.Store.Append: times are numbers, not text; `Timestamps.TextOrderIsTimeOrderIff` says when the order is the same. Rows of a database from before the column are those without a time.
- Timestamps.TextOrderIsTimeOrderIff: does not model subtracting days in the calendar; the cutoff is a number. Years are written without leading zeros, as the C library of Linux does.
- Canonical.Canonicalize: negative zero and lone surrogates are not modelled.
- CanonicalForm.CanonicalizesIff: does not model the limit of Python 3.11 and later on the conversion of integers, by which one of more than 4300 digits is refused as well.
- Canonical.JcsText: an integer beyond the range of doubles, for which RFC 8785 has no text, gets one with an exponent; it differs from the canonical text either way.
- Consumers.Consumer.IngestLine: does not model the stripping of white space; the text is the line without it.
- Consumers.Consumer.Gaps: does not model the order of entries, nor the joining of gateway and machine id into one text with a slash.
- Exporters.Exporter.Drain: sends to one destination; drains of several are serialised by a lock, as in the state machine.
- PipelineCalls.DrainIsARun: does not model a concurrent append between two batches of one drain as part of the call; the state machine itself allows it.
- Crc.Shift: is written without a branch; the loop of `Crc.Crc16` has the source's branch and is proved to be it.
- Modbus.BuildReadTcp: no law but an example request; arguments out of their field's range, which the source refuses, do not occur in its types.
- RegisterValues.DecodeValue: scales in exact arithmetic; the rounding of binary floats is not modelled.
- Simulators.Machine.Emit: time is a number and its text any function of it; runs past the year 9999 are not modelled.
- SimulatedDyeing.RunDyeMachine: shares of the duration are exact; binary rounding is not modelled.
- Audits.Audit: the text of details and the citation block are left out; a value that is missing or not of the kind that the schema demands counts as malformed, where the source raises one error or another. The envelopes cited all belong to the run's machine, so the filter of the consistency check is dropped.
- AuditOrder.AuditIgnoresOrder: sums energy exactly, as Python does for integers; sums of binary floats depend on their order, so that readings such as 1e16, 1.0 and -1e16 could change the verdict.
- AuditMeaning.ConsistencyIff: totals and quotients are exact, as above.
- Audits.CompareEnergy: finite numbers are exact; sums beyond the range of doubles, which become infinite, and integers beyond it, for which the source raises when it meets a float or divides, are not modelled.
- SimulatedAudit.SimulatedRunPasses: the bundle must hold one summary of the run, as the source refuses several; conformance depends on the schemas and is not claimed.
- StatsWindows.StatsAggregator.Add: sums and averages in exact arithmetic; the rounding of binary floats is not modelled.
- NodeRing.Firmware.MqttEnsure: the link, the broker and the acceptance of each message are arbitrary; the text of messages is opaque.
- Reloads.Gateway.ApplyReload: does not model the order in which machines stop and start, the printed counts, threads and their joining, nor what is left running when the process ends; whether an adapter loads, can be built and stops without an exception is arbitrary, and loading is the same at both imports.
- Registries.LoadRegistry: a value of the wrong kind inside an entry, for which the source raises another error, is not modelled.
- Evidence.RecordsTextInjective: needs checksums of 64 characters, which SHA-256 in hexadecimal always has.
- Matching of serial lines, register addresses, emission on change, health marks, the crash supervisor, topics, command lines, the provisioning portal and sampling: single-branch facts or I/O.
