# Verified model of the Pico energy manager

The firmware reads meters and inverters over Modbus, smooths the home's power, asks each inverter for its part of
it, keeps a history of everything measured, and serves a web page from an access point of its own. This project
models the logic under that in Dafny 4.11 and proves what it keeps over every run. `dafny verify dfyconfig.toml`
checks all of it.

## What is modelled

| files | what |
|---|---|
| `RingBuffer`, `Grouping`, `History`, `DeviceTable` | the circular buffer; the roll-up of seconds into minutes and hours, proved to be what grouping the whole unbounded history gives although each roll-over reads 60 slots; the table that gives every device such a history |
| `Distribution`, `Emm`, `Budget`, `HomeFilter` | one update of the energy manager in four stages, the loops that run it, the budget of all requests, and runs of the smoothing filter with its buttons |
| `SortEnergy` | the counting sort with 8-bit counters that may wrap |
| `InverterSteps`, `Inverter`, `InverterRuns`, `InverterFaults`, `InverterReady`, `InverterCycles`, `InverterAnswers`, `InverterWalk`, `InverterDiscovery`, `InverterKeeps`, `InverterRequests`, `InverterStamps`, `InverterWakes` | one inverter connection: the state machine on values, the class whose switch falls through from label to label, every run of events, when it follows a null pointer, the fetch and send cycles, which registers are asked for and how often, what becomes of an answer, and discovery by walking a chain of headers |
| `Flash` | sector-wise read-modify-write over memory that programming can only clear, refining a map |
| `Dhcp`, `DhcpRuns`, `DhcpOptions`, `DhcpMessages` | the lease table under a truncated stamp and a wrapping clock, every run of it, a message from its options to the reply, and every run of messages |
| `HttpText`, `HttpSend`, `HttpMessage`, `DigestHex` | reading and printing a request, the loop that hands bytes to the network stack, the message buffer that streams bodies in frames, and the in-place hex expansion of the digest check |
| `Wrappers` | optional values |

Code that updates fields, arrays or views step by step is a class or a method with loops, proved equal to functions
on values; what those functions mean is then proved in lemmas. Measured values are reals, time is unbounded and cut
to 16 or 32 bits where the code cuts it, and the network stack, the Modbus codec, the flash chip and SHA-256 are the
environment: what they may do is a parameter or an event.

## What the proofs found

- The mean of an hour divides by zero when the hour was sampled in a single minute, because the closing minute is
  pushed only after the hour mean is taken (`Grouping.HourIsNumber` is exact, `History.LonelyMinuteIsNaN` an example).
- Full inverters are not offset against each other: each may hand over all that the others can take up
  (`Budget.HandedFits` is exact, `Budget.HandedTwice` an example). Without any fillable inverter the power handed
  over is requested all the same (`Budget.OnlyExported` is exact, `Budget.LoneIsAsked` an example, and
  `Budget.PowerBudget` has the bound with and without).
- The surplus stage runs after the top-up and adds to the request of a full inverter without looking at `power_max`
  again (`Budget.WithinMaximum` is exact, `Budget.FullOverMaximum` an example).
- The sort is right for 256 items although counts and offsets wrap at 256 (`SortEnergy.ScatterStep`).
- A header line without a blank behind the colon is misread (`HttpText.FieldLineExact` is exact).
- A body is cut off after 32 frames, which at 4096 bytes of buffer is 131038 bytes (`HttpMessage.LosesTheLast`). One
  written to a buffer that is filled to the last byte computes a negative frame size, with which a part behind the end
  of the body is asked for: an error (`HttpMessage.MessageBuffer.ResWriteBody` is exact for both,
  `HttpMessage.FailsWhenFull` an example). Adding a header whose key and colon do not fit the buffer is an error of
  that kind too (`HttpMessage.MessageBuffer.ResAddHeader` is exact, `HttpMessage.KeyOutOfRange` an example).
- Sending goes on for ever if and only if it comes to a point where data is left and the stack accepts every further
  attempt without any space, because such an attempt costs no retry (`HttpSend.EndlessExact`, with a stack in
  `HttpSend.NoSpaceIsEndless`); a stack that refuses ends it after ten retries (`HttpSend.RefusalEnds`).
- Nameplate and settings are first read ten and five minutes after the start of the clock
  (`InverterCycles.RatingsWait`), and the stage of the trackers stamps the controls as fetched.
- Pointers to models are used without a check. When that goes wrong is exact for every event
  (`InverterFaults.FaultExact`) and for discovery as a whole (`InverterDiscovery.DiscoveryTripsExact`, with a register
  map in `InverterDiscovery.OverlongTrips`). A peer that closes while an answer is needed is one case.
- The name of an inverter is known before its models are, and a timeout or failure keeps it. After that the inverter
  is taken as ready without knowing its models (`InverterReady.CutShortSkipsDiscovery`), and a power request follows a
  null pointer (`InverterReady.SilenceMakesSendFault` is a whole run). Without that it never does
  (`InverterReady.UncutIsReady`). A fetch notices a missing inverter model (`InverterCycles.FetchRepairs`).
- The acknowledgement that the storage control has been enabled is neither parsed nor freed
  (`InverterAnswers.AnswerIsParsedOnce`); every other answer is parsed exactly once.
- The search for the common model passes over an end marker, so only the end of the storage stops it
  (`InverterDiscovery.Search`).
- A client that holds two addresses is offered that of the earlier entry, not the one acknowledged last
  (`DhcpRuns.LeaseIsOffered` is exact, `DhcpRuns.OtherAddressOffered` an example).
- Padding between DHCP options is taken for an option with a length, which may hide the type of the message
  (`DhcpOptions.PlacesStandard` is exact, `DhcpOptions.PaddingHidesType` an example).
- A minute with more than 60 samples is averaged over 60 of them (`Grouping.WindowCount` is exact), and after a clock
  has been set back a minute may be recorded twice (`History.SetBackRecordsTwice`).
- An expired lease looks running again after half the range of the clock, about 25 days, and so on in turn
  (`Dhcp.ExpiryWindow`); the 24 hours themselves are kept on every run (`DhcpRuns.LeasesAreExclusive`).
- The comments in `include/history_data.h` lines 11 and 12 give two days and four years for the buffers of minutes and
  hours; the capacities, which the model follows, are seven days and two years.

## Model

| member | source | states |
|---|---|---|
| `RingBuffers.RingBuffer.constructor` | include/static_types.h:91-96 | a new buffer is empty over zeroed slots |
| `RingBuffers.RingBuffer.Push` | include/static_types.h:101-107 | the entry joins everything pushed since the last clear; `Valid` ties start, write position, full flag and every raw slot to the last `capacity` of those entries |
| `RingBuffers.RingBuffer.Clear` | include/static_types.h:108 | the contents are empty; the raw slots stay and become what unwritten slots show |
| `RingBuffers.RingBuffer.IsEmpty` | include/static_types.h:109 | true exactly if nothing has been pushed since the last clear |
| `RingBuffers.RingBuffer.Size` | include/static_types.h:110 | the number of entries kept, in all positions of the two cursors |
| `RingBuffers.RingBuffer.At` | include/static_types.h:122-123 | index i from the oldest, -i back from the newest entry, and which stale slot a negative index beyond the contents shows |
| `RingBuffers.RingBuffer.Iterate` | include/static_types.h:97-100 | a range-for visits exactly the contents, each once, oldest first, also in a full buffer where begin and end are the same slot |
| `Grouping.SampledExact` | src/history_data.cpp:66-73 | a period counts as sampled if and only if some sample of the whole history lies in it |
| `Grouping.ClosedSlotsExact` | src/history_data.cpp:61-63 | the closed periods are exactly the sampled ones before the newest, strictly increasing: a roll-over happens once for each |
| `Grouping.WindowSuffices` | src/history_data.cpp:67-73 | sum and count over the last 60 raw slots equal sum and count over the whole history for the newest period, never-written slots included |
| `Grouping.NewestCounts` | src/history_data.cpp:61-74 | whatever the clock did, at least one of the 60 slots lies in the period being closed, so the minute mean never divides by zero |
| `Grouping.WindowCount` | src/history_data.cpp:67-73 | with a clock that never goes back a roll-over averages exactly min(60, n) of the n entries of the period: all of them if and only if there are at most 60 |
| `Grouping.MeanStable` | src/history_data.cpp:69-72 | later samples do not change the sum or count of an earlier period |
| `Grouping.MinuteStep` | src/history_data.cpp:59-75 | one more sample closes a minute exactly when it lies in another one, and adds the mean over that minute's whole history |
| `Grouping.HourStep` | src/history_data.cpp:77-91 | one more sample closes an hour exactly when it lies in another one; the record is the one the whole history calls for |
| `Grouping.HourRecordsStable` | src/history_data.cpp:77-91 | records of hours closed before are not affected by a later sample |
| `Grouping.MinuteRecordsSparse` | src/history_data.cpp:83-86 | the minute records form an ordered sequence with at most 60 per hour, so 60 slots suffice for the hour mean |
| `Grouping.MinuteRecordInHour` | src/history_data.cpp:83-89 | at the close of an hour a pushed minute record falls into it if and only if some earlier minute of it than the newest was sampled |
| `Grouping.HourIsNumber` | src/history_data.cpp:80-90 | the record of an hour is a number if and only if the hour was sampled in two different minutes; otherwise it is 0/0, or missing while no minute record exists at all |
| `History.StrictClockIsTimeline` | src/history_data.cpp:59-98 | strictly increasing seconds from 3600 on meet everything the other results need of the clock |
| `History.LonelyMinuteIsNaN` | src/history_data.cpp:90 | a concrete history whose second hour, sampled in one minute only, is recorded as not a number |
| `History.MinuteDivisor` | src/history_data.cpp:74 | with a clock that keeps to its guarantee the divisor of a minute counts all its samples |
| `History.MinuteRollUp` | src/history_data.cpp:59-75 | the record computed from 60 slots is what grouping the whole history adds to the minute records |
| `History.HourRollUp` | src/history_data.cpp:77-91 | the same for hours, over the minute records pushed before the closing minute |
| `History.RollUpsGroup` | src/history_data.cpp:59-98 | over every run of such a clock the records, taken from 60 raw slots each, are those of grouping all samples by minute and by hour |
| `History.SetBackRecordsTwice` | src/history_data.cpp:60-75 | a concrete history with a clock set back by a minute: that minute is recorded a second time, behind the next one |
| `History.DeviceData.constructor` | include/history_data.h:26-30 | an empty history in three empty buffers of the stated capacities |
| `History.DeviceData.SumLast60` | src/history_data.cpp:65-73 | sum and number of those of the slots -60 to -1 that lie in the period |
| `History.DeviceData.CloseMinute` | src/history_data.cpp:60-75 | the record of the minute being closed, or none; the division is by a positive number whatever the clock did |
| `History.DeviceData.CloseHour` | src/history_data.cpp:77-91 | the record of the hour being closed, or none, from the minute records without the one being closed |
| `History.DeviceData.PushRecords` | src/history_data.cpp:93-97 | the new entries go to the three buffers, after both means have been computed |
| `History.DeviceData.AddData` | src/history_data.cpp:59-98 | after every run of calls, with any clock, each buffer holds the newest of all samples, minute records and hour records; with a clock that keeps to its guarantee those are what grouping the whole sample history calls for |
| `DeviceTable.Table.Find` | src/history_data.cpp:28-30 | the first slot with the id, or none |
| `DeviceTable.Table.constructor` | src/history_data.cpp:12-19 | all slots are free, each with buffers of its own |
| `DeviceTable.Table.Write` | src/history_data.cpp:26-37 | as a map from device to history: the sample is appended under its id, a new device takes a free slot with an empty history, all others keep theirs; a full table drops the sample. `Valid` ties the three buffers of every slot to its history |
| `DeviceTable.Table.AddTo` | src/history_data.cpp:36 | the sample goes to the buffers of one slot; the buffers of all others are untouched |
| `DeviceTable.Table.TakeOver` | src/history_data.cpp:30-34 | a new device gets empty buffers that no other slot shares |
| `DeviceTable.HistoriesUpdate` | src/history_data.cpp:38-49 | changing one slot is an update of the map at that id, and the ids stay distinct |
| `Distribution.Plant.Overpower` | src/emm.cpp:68-71 | the export of a full inverter lies between 0 and its maximum, so the `continue` is never taken |
| `Distribution.ExportExact` | include/emm_structs.h:36-39 | an inverter can be asked for just the power that photovoltaics and, above the minimum charge only, the battery give together, and that it can deliver itself |
| `Distribution.ImportExact` | include/emm_structs.h:40-42 | it can take up power just below 99 percent, and as far as photovoltaics leave room in its charging power |
| `Budget.RampExact` | src/emm.cpp:29-40 | below the minimum charge an inverter is forced, else full from 98 percent on; what it should export grows evenly from nothing at 98 to its maximum at 99, so a fillable one has nothing to spare |
| `Distribution.PriorityExact` | src/emm.cpp:48 | the share of an inverter is the part its inverse priority has in the sum of all of them |
| `Distribution.Plant.SelectExact` | src/emm.cpp:25-43 | an index list is ascending and holds exactly the inverters of its kinds |
| `Distribution.Plant.Shared` | src/emm.cpp:37-41 | an ascending list, and when somebody shares the need, the sum of inverse priorities is positive |
| `Distribution.Plant.TopUpDone` | src/emm.cpp:55-56 | leaving the loop when nothing remains loses no top-up |
| `Distribution.Plant.Headroom` | include/emm_structs.h:36-39 | what an inverter can still be asked for is never negative |
| `Emm.EnergyManager.UpdatePower` | src/emm.cpp:10-87 | the filter makes the step of its specification, and all requests are those of the four stages applied to the old ones |
| `Emm.EnergyManager.Classify` | src/emm.cpp:25-43 | the three lists, the need, the fillable power and the sum of inverse priorities; force-charged inverters get their request |
| `Emm.EnergyManager.ShareNeed` | src/emm.cpp:46-51 | each share is taken from what the real exports of the predecessors leave |
| `Emm.EnergyManager.TopUpGreedily` | src/emm.cpp:54-64 | the loop over a running remainder computes the headroom-wise specification, early exit included |
| `Emm.EnergyManager.MoveSurplus` | src/emm.cpp:66-86 | the loop over the full inverters with the running export limit |
| `Emm.EnergyManager.ExportSurplus` | src/emm.cpp:68-85 | one full inverter: taken equally from the fillable ones, then to the grid within the limit |
| `Emm.EnergyManager.TakeEqually` | src/emm.cpp:76-77 | every fillable inverter gives up the same part |
| `Emm.EnergyManager.AdoptFaster` | src/draw.cpp:730-731 | the filter factor is scaled down |
| `Emm.EnergyManager.AdoptStabler` | src/draw.cpp:732-733 | its distance to one is scaled down |
| `Emm.EnergyManager.InvertMeter` | src/draw.cpp:719-723 | the sign of later measurements is toggled |
| `Budget.ForceChargeExact` | src/emm.cpp:29-33 | exactly the inverters below their minimum charge are asked for -power_max_cha, all others keep their request |
| `Budget.NeedExact` | src/emm.cpp:19-31 | the need is the home's plus what exactly the force-charged inverters take in |
| `Budget.FillablePowerExact` | src/emm.cpp:26-27 | the power that can be taken up is that of all inverters, of whatever kind |
| `Budget.SharedSplits` | src/emm.cpp:34-42 | the sharing inverters are the fillable and the full ones: their sums add up, so nobody is in two lists or in none |
| `Budget.SharesSumToOne` | src/emm.cpp:37-48 | the priority shares of one update sum to exactly 1 |
| `Budget.RealExportExact` | src/emm.cpp:50 | what is taken off the need on the way is the sum of the real exports of those before |
| `Budget.ShareExact` | src/emm.cpp:46-50 | in every update each sharing inverter is asked for the power that, times its priority and the weight sum, makes up what its predecessors do not export of the need; or for exactly its maximum where that would be more |
| `Budget.SharesInRatio` | src/emm.cpp:46-50 | with nothing exported and nobody capped any two shares stand in the ratio of the inverse priorities |
| `Budget.SharesMeetNeed` | src/emm.cpp:46-50 | and all of them together are exactly the need |
| `Budget.SharedByPriority` | src/emm.cpp:46-50 | two inverters of one priority that export 500 W each for a need of 1000 W are asked for 500 W and 250 W |
| `Budget.ShareSum` | src/emm.cpp:47-51 | after sharing, the requests sum to at most the need weighted by the shares |
| `Budget.ShareWithinMaximum` | src/emm.cpp:49 | no share exceeds its inverter's maximum |
| `Budget.TopUpExact` | src/emm.cpp:54-64 | the top-up adds exactly min(max(0, remaining), sum of positive headrooms) |
| `Budget.TopUpGreedy` | src/emm.cpp:54-64 | an inverter is topped up only if every earlier one is saturated, and never over what it has available |
| `Budget.ToppedUpWithinMaximum` | src/emm.cpp:58-62 | after the top-up no request of a sharing inverter exceeds power_max |
| `Budget.TakeExact` | src/emm.cpp:76-77 | taking a part from each of k inverters lowers their sum by k parts and nobody else's request |
| `Budget.SpreadExact` | src/emm.cpp:76-77 | the fillable inverters together give up exactly what is handed over, or nothing when there are none |
| `Budget.SurplusStep` | src/emm.cpp:67-86 | one full inverter: what it is asked for more is what the fillable ones are asked for less, plus its export to the grid |
| `Budget.SurplusExact` | src/emm.cpp:66-86 | over the whole loop the sum of requests changes only by the export to the grid, unless nobody is fillable |
| `Budget.ForcedKeepsCharging` | src/emm.cpp:29-33 | a force-charged inverter keeps -power_max_cha through all stages |
| `Budget.SurplusAccount` | src/emm.cpp:65-86 | the whole update: the final sum is the topped-up sum plus the grid export, which is what the limit leaves of all spare power, and without a fillable inverter the handed-over power on top |
| `Budget.PowerBudget` | src/emm.cpp:23-86 | all requests but the force-charged ones sum to at most need + max(0, need - real exports) + max_export, and without a fillable inverter what the full ones would have handed over on top |
| `Budget.OnlyExported` | src/emm.cpp:65-86 | the surplus stage changes the sum by the grid export alone if and only if somebody is fillable, nothing can be taken up, or no full inverter has anything to spare |
| `Budget.RestIsAsked` | src/emm.cpp:73-78 | a lone full inverter with nothing needed and no export allowed is asked for all it could have handed over |
| `Budget.LoneIsAsked` | src/emm.cpp:73-78 | at 98.5 percent of charge and 1000 W of maximum that is 500 W |
| `Budget.ToppedUpAt` | src/emm.cpp:45-64 | sharing and top-up ask each inverter for its part of what its predecessors do not export and for what they have no headroom for |
| `Budget.SurplusAt` | src/emm.cpp:67-86 | the surplus stage adds to a full inverter exactly what it has to spare, as far as that can be taken up or the export limit leaves room |
| `Budget.AskedExact` | src/emm.cpp:45-64 | the same from the inputs alone, in closed form and whatever was requested before: the share, and of what remains what the predecessors have no room for |
| `Budget.WithinMaximum` | src/emm.cpp:65-86 | no final request exceeds power_max if and only if every full inverter has room for what it has to spare on top of what the measurements and settings have it asked for; fillable inverters always keep to it |
| `Budget.FullOverMaximum` | src/emm.cpp:80-85 | an inverter at 100 percent that covers a need of 1000 W is asked for 2000 W, twice its maximum |
| `Budget.HandedFits` | src/emm.cpp:74-78 | the full inverters together hand over no more than can be taken up if and only if nothing can be taken up, all surplus can, or at most one inverter has surplus |
| `Budget.HandedTwice` | src/emm.cpp:74-75 | two full inverters offer the same 500 W of charging power twice |
| `HomeFilter.RunBounded` | src/emm.cpp:16-18 | over any interleaving of updates and button presses the filter factor stays strictly between 0 and 1 and the filtered power never exceeds the largest measurement in magnitude |
| `HomeFilter.FasterFollows` | src/draw.cpp:730-731 | behind the faster button a measurement leaves nine tenths of the error it would have left |
| `HomeFilter.StablerStays` | src/draw.cpp:732-733 | behind the stabler button it moves the power by nine tenths of what it would have moved it |
| `HomeFilter.InvertNegates` | src/draw.cpp:719-723 | behind the invert button every run of measurements and presses is that of the opposite measurements |
| `HomeFilter.RunIsUpdates` | src/emm.cpp:16-18 | a run of equal measurements is iterated interpolation towards that value, with the sign the invert button asks for |
| `HomeFilter.ErrorDecays` | src/emm.cpp:18 | after n such updates the error is alpha^n times the initial error |
| `SortEnergy.BucketAntitone` | src/draw.cpp:119 | a larger energy never gets a larger bucket number |
| `SortEnergy.BucketExact` | src/draw.cpp:119 | bucket b below 15 kW is exactly the energies e with (255 - b) * 15000 <= e * 255 < (256 - b) * 15000, bucket 0 also all above |
| `SortEnergy.RankOrder` | src/draw.cpp:123-131 | places follow the order of buckets, ties the order of positions |
| `SortEnergy.OwnerOf` | src/draw.cpp:130-131 | every place is taken by some item, so the places are a permutation |
| `SortEnergy.RanksSort` | src/draw.cpp:130-131 | putting every item at its rank yields the stable order |
| `SortEnergy.LargerFirst` | src/draw.cpp:115-132 | in the stable order buckets do not decrease, and an energy stands before a larger one only if both fall into one bucket |
| `SortEnergy.StableOrderDescends` | src/draw.cpp:115-132 | so an energy below 15 kW never stands before one that is larger by 15000/255 W or more |
| `SortEnergy.TwoEnergies` | src/draw.cpp:119-131 | 100 W and 14 kW fall into the buckets 254 and 17 and come out in the opposite order |
| `SortEnergy.CountBytes` | src/draw.cpp:120-121 | the histogram holds every count modulo 256 |
| `SortEnergy.FullBucketWraps` | src/draw.cpp:120-121 | the counter of a bucket with all of 256 items reads zero |
| `SortEnergy.ScanBytes` | src/draw.cpp:123-128 | the exclusive scan over wrapped counts leaves every offset right modulo 256 |
| `SortEnergy.ScatterStep` | src/draw.cpp:130-131 | the byte read as a place is the item's true rank although offsets wrap, and one scatter step keeps that |
| `SortEnergy.Sort` | src/draw.cpp:115-132 | for up to 256 items, 256 included: a permutation of all indices, in the stable order of the energy buckets, and descending up to the width of one |
| `InverterRuns.AdvanceTurns` | src/inverter.cpp:209-436 | one turn of the switch, through all fall-throughs and with or without an answer, ends idle with nothing outstanding, with exactly one request sent and outstanding, with a close requested, or at a null pointer |
| `InverterRuns.FetchTurns` | src/inverter.cpp:342-411 | the same for falling through the refetch stages from any of them |
| `InverterRuns.ConnectTurns` | src/inverter.cpp:218-229 | the same for the established connection |
| `InverterRuns.AnswerKeepsInv` | src/inverter.cpp:587-591 | the same for every answer, whatever it holds |
| `InverterRuns.StartKeepsInv` | src/inverter.cpp:118-136 | the same for the start of a fetch |
| `InverterRuns.SendKeepsInv` | src/inverter.cpp:137-166 | the same for the start of a power request, models known or not |
| `InverterRuns.TimeoutKeepsInv` | src/inverter.cpp:181-199 | the same for the end of a waiting period |
| `InverterRuns.FailureKeepsInv` | src/inverter.cpp:595-602 | the same for a failed connection |
| `InverterRuns.EventKeepsInv` | src/inverter.cpp:90-201 | whatever event happens: idle, one outstanding request that its answer will be stored against, or about to be closed, unless a null pointer has been followed; a request is sent only when none is left open |
| `InverterRuns.RequestsAreSettled` | src/inverter.cpp:437-466 | over every run from a new connection, ended by a null pointer or not: each request sent has been answered or dropped exactly once, but for the at most one outstanding |
| `InverterFaults.FaultExact` | src/inverter.cpp:137-166 | an event makes the code follow a null pointer if and only if: a power request starts without controls and storage within what is held; an answer is decoded as a model that is not; the end marker or its acknowledgement comes with such a storage or such controls; or the other side closes in a state that needs an answer |
| `InverterFaults.AnswerFaults` | src/inverter.cpp:467-546 | of these, exactly the ones that an answer can cause |
| `InverterFaults.HangupFaults` | src/inverter.cpp:467-471 | exactly the states in which a closing peer causes it |
| `InverterFaults.SendFaults` | src/inverter.cpp:146-158 | exactly the contexts in which a power request does |
| `InverterReady.UncutIsReady` | src/inverter.cpp:90-201 | over every run in which discovery was never cut short: whenever a power request may start, both models it writes to are known and held |
| `InverterReady.CutShortExact` | src/inverter.cpp:181-199 | discovery is cut short, with the name kept, by exactly a failure or the fourth waiting period |
| `InverterReady.CutShortSkipsDiscovery` | src/inverter.cpp:218-224 | after that the inverter counts as ready on reconnecting, with the addresses found so far and no second walk |
| `InverterReady.SilenceMakesSendFault` | src/inverter.cpp:137-158 | a run of a new connection of eleven events after which every power request follows a null pointer |
| `InverterAnswers.AnswerIsParsedOnce` | src/inverter.cpp:467-546 | an answer is parsed exactly once, through whatever cases it falls, and decoded against the address of its request; only the acknowledgement of the storage control is never looked at |
| `InverterAnswers.AnswersAreParsedOnce` | src/inverter.cpp:209-436 | over every run the log of parsed answers is exactly the answers that came, in order, each once |
| `InverterAnswers.AnswerIsStored` | src/inverter.cpp:471-483 | in a cycle the registers of an answer go exactly where the request asked for them, whatever stages are fallen through |
| `InverterAnswers.FetchIsDecoded` | src/inverter.cpp:489-546 | throughout a fetch every answer is decoded as the first model, in the order of the branches, that was found at the address of the request; that is the model asked for if and only if none tried before it was found there; controls are stored only |
| `InverterRequests.WholeModelAsked` | src/inverter.cpp:332-405 | over every run a fetch waits for exactly the registers of the model it asks for, where that has been found: all of its layout, or as many tracker registers as noted |
| `InverterRequests.SizesExact` | src/inverter.cpp:332-405 | the layouts' sizes are the header and the length it announces, model by model |
| `InverterRequests.TrackersAsked` | src/inverter.cpp:291-292 | over every run with an inverter whose headers do not change, the trackers are asked for with the length that the header in its registers announces |
| `InverterKeeps.AdvanceKeeps` | src/inverter.cpp:209-436 | only the walk changes what is known of the models, and only a refetch when they were fetched |
| `InverterStamps.DueExact` | src/inverter.cpp:346-399 | on the 32-bit clock, wraps included, a model fetched at a time is due exactly from 600, 300, 60 or 30 seconds later on; status and controls also if never stamped, the trackers always |
| `InverterStamps.StampsAreLast` | src/inverter.cpp:341-405 | over every run the stamp of a model is the time of the last request for it |
| `InverterStamps.AskedWhenDue` | src/inverter.cpp:341-405 | over every run no model is asked for before its period is over since it was last asked for |
| `InverterCycles.AnswerLowersRank` | src/inverter.cpp:332-430 | every answer within a cycle that can be decoded lowers the rank, whichever refetch timers fire |
| `InverterCycles.FetchIsBounded` | src/inverter.cpp:332-411 | from the start of a fetch at most seven answers follow, and the connection is idle whenever nothing is outstanding |
| `InverterCycles.SendIsBounded` | src/inverter.cpp:413-430 | from the start of a power request at most three answers follow |
| `InverterCycles.SendWrites` | src/inverter.cpp:413-430 | these are the acknowledgements of three writes: the limit to the controls, the charging rate and the reserve to the storage; where the models overlap, the limit gives way to what is entered after it |
| `InverterCycles.NextIsFirstDue` | src/inverter.cpp:342-405 | the next request is for the first model that is due: nothing due is skipped and nothing else asked for; an unknown model breaks off only when nothing before it is due |
| `InverterCycles.RatingsWait` | src/inverter.cpp:346-357 | with nothing fetched yet the first refetch is the nameplate from ten minutes on, the settings from five, and before that the status: the ratings have no exception for the first time |
| `InverterCycles.SilenceIsClosed` | src/inverter.cpp:185-198 | an inverter that stops answering is disconnected after exactly the remaining of four waiting periods, and keeps its name |
| `InverterCycles.FetchRepairs` | src/inverter.cpp:332-337 | if the inverter model is missing, the next fetch asks for nothing and the connection is closed and its name forgotten, so discovery starts anew |
| `InverterWalk.LatestExact` | src/inverter.cpp:286-297 | the recorded address is the last header of that model in the chain, or the previous one if there is none |
| `InverterWalk.HeaderStep` | src/inverter.cpp:277-303 | one header: noted if known, whether it fits or not, and the next one is asked for behind the announced length |
| `InverterWalk.EndStep` | src/inverter.cpp:295-317 | the end marker falls through to writing 3 to the storage control mode, to giving up without a storage, or to a null pointer with one that reaches beyond what is held |
| `InverterWalk.OverflowStep` | src/inverter.cpp:279-284 | a header outside the storage ends the walk with a close and leaves all addresses |
| `InverterWalk.ControlsStep` | src/inverter.cpp:318-330 | then 1 is written to the power limit switch of the controls, or the connection is given up without controls, or a null pointer is followed |
| `InverterWalk.Walk` | src/inverter.cpp:277-330 | on every register map the walk comes to rest or to a null pointer; at rest every known model has the address of its last header or keeps the one it had; usable if and only if end marker, storage and controls were found |
| `InverterWalk.TripsExact` | src/inverter.cpp:277-330 | the walk follows a null pointer if and only if it comes to the end marker having found a storage that reaches beyond what is held, or such controls behind a proper one |
| `InverterDiscovery.Search` | src/inverter.cpp:244-276 | on every register map the search for the common model comes to rest, to a null pointer, or to the walk behind it exactly if its name lies within the storage |
| `InverterDiscovery.Discovery` | src/inverter.cpp:218-330 | the whole discovery from the established connection, whatever the registers hold |
| `InverterDiscovery.DiscoveryTripsExact` | src/inverter.cpp:218-330 | from a new connection discovery follows a null pointer if and only if the register map leads it to an end marker behind a storage or controls beyond what is held |
| `InverterDiscovery.OverlongTrips` | src/inverter.cpp:304-317 | a concrete register map that does: its storage model begins eleven registers before the end |
| `InverterDiscovery.FoundDistinct` | src/inverter.cpp:286-297 | a walk from nothing finds different models in different places |
| `InverterDiscovery.CompleteIsUsable` | src/inverter.cpp:218-330 | a concrete register map with all models, by which a new connection discovers everything the next two results ask for |
| `InverterDiscovery.DiscoveredIsDecoded` | src/inverter.cpp:218-411 | from connecting to the first fetch: every answer is decoded as the model it was asked for |
| `InverterDiscovery.DiscoveredIsWritten` | src/inverter.cpp:137-430 | from connecting to the first power request: it follows no null pointer and writes its three values |
| `Inverter.Connection.AdvanceContextState` | src/inverter.cpp:209-436 | the imperative switch with its fall-throughs does to the fields what one step of the state machine says, null pointers and wake-up included |
| `Inverter.Connection.Stage` | src/inverter.cpp:342-405 | a label of the switch: entered by jump or fall-through it parses exactly the answer still at hand, then breaks, requests, or falls through |
| `Inverter.Connection.FetchStages` | src/inverter.cpp:342-411 | the six refetch labels and the closing one, from whichever the state selects |
| `Inverter.Connection.FindDataHeader` | src/inverter.cpp:277-317 | bounds check, recording, and either the next header or the fall-through at the end marker |
| `Inverter.Connection.FindCommonHeader` | src/inverter.cpp:244-261 | bounds check, next header address, and name request or further search |
| `Inverter.Connection.ParseFrame` | src/inverter.cpp:467-546 | follows a null pointer without an answer; otherwise stores it at the last requested address, consumes it, and decodes it through the pointer of the model found there, one log entry each time |
| `Inverter.Connection.WakeUp` | src/inverter.cpp:432-435 | the waiting task is woken exactly on becoming idle |
| `InverterWakes.WokenOnce` | src/inverter.cpp:432-435 | over every run the main task has been woken up exactly once for every activity begun, but for the one under way, and waits for just that one |
| `InverterWakes.CloseExact` | src/inverter.cpp:181-199 | the end of a waiting period closes exactly a connection to be closed or busy for the fourth period, leaves nothing outstanding, and keeps the name in the second case only |
| `Flash.SpanFits` | include/persistent_storage.h:79-86 | the rounded-out sector span fits the buffer if and only if offset in the sector plus size does |
| `Flash.PatchWider` | include/persistent_storage.h:155-158 | completing data with the flash's own contents around it and rewriting the wider range changes nothing else |
| `Flash.ProgramErased` | include/persistent_storage.h:162 | programming erased bytes stores exactly the data |
| `Flash.DoStep` | include/persistent_storage.h:75-117 | one write of a member or of a range of its elements writes over exactly those bytes of its member if it is accepted, and leaves every other member |
| `Flash.LastWhole` | include/persistent_storage.h:75-91 | after an accepted write of a whole member the map holds just that |
| `Flash.FlashRefinesMap` | include/persistent_storage.h:75-117 | over every run of writes of members and of array ranges each member reads back what it held at first, with the accepted writes to it written over it in turn |
| `Flash.OtherBytesUnchanged` | include/persistent_storage.h:154-166 | over every run of such writes a byte outside all written members never changes, sector neighbours included |
| `Flash.Storage.Erase` | include/persistent_storage.h:167-179 | sets all bits of the range, or nothing when a guard rejects it |
| `Flash.Storage.Program` | include/persistent_storage.h:180-192 | clears bits of the range, or nothing when a guard rejects it |
| `Flash.Storage.EraseAndProgram` | include/persistent_storage.h:163-164 | rewrites whole sectors; neither guard rejects them |
| `Flash.Storage.Complete` | include/persistent_storage.h:155-158 | the buffer holds flash, data, flash over the whole sectors |
| `Flash.Storage.WriteImpl` | include/persistent_storage.h:154-166 | the chip is as before but for the data |
| `Flash.Storage.WriteMember` | include/persistent_storage.h:76-91 | OK if and only if the sectors fit the buffer; then the member holds the data, otherwise nothing changed |
| `Flash.Storage.WriteArrayRange` | include/persistent_storage.h:94-117 | empty range, bad indices, too many sectors, and success, each with the resulting chip; the range stays within its member |
| `Flash.Storage.Read` | include/persistent_storage.h:119-126 | the member's bytes |
| `Dhcp.StampIsDeadline` | src/dhcpserver.c:271 | the 16-bit stamp is the unbounded deadline modulo the range of the clock |
| `Dhcp.ExpiryWindow` | src/dhcpserver.c:229-230 | a lease runs at least 24 hours and up to 65.5 s longer; at any later moment it is seen as expired if and only if that lies in an odd half range of the clock behind the deadline |
| `Dhcp.OfferIsHonoured` | src/dhcpserver.c:214-273 | a client that asks for the address it has just been offered is acknowledged for it |
| `Dhcp.OfferExact` | src/dhcpserver.c:217-239 | a client is offered the first entry of its own; only without any the first that is free or expired when looked at; nothing if and only if there is neither |
| `Dhcp.ClearedExact` | src/dhcpserver.c:224-233 | a DISCOVER clears exactly an expired entry that is the first free or expired one and lies before the client's own |
| `Dhcp.AcknowledgedExact` | src/dhcpserver.c:246-270 | an entry is acknowledged if and only if its address is asked for, behind the server's own three bytes, and it is the client's or free |
| `Dhcp.Server.Discover` | src/dhcpserver.c:215-244 | the entry offered is the client's own or else the first free or expired one; only an expired entry met before is cleared |
| `Dhcp.Server.Request` | src/dhcpserver.c:246-278 | granted if and only if the address is one of the server's eight and its entry is the client's or free; only that entry changes |
| `DhcpRuns.DiscoverKeepsInv` | src/dhcpserver.c:215-244 | a DISCOVER never clears an entry whose 24 hours are not over |
| `DhcpRuns.AckIsExclusive` | src/dhcpserver.c:261-270 | whoever held an address before the client acknowledged now has had 24 hours |
| `DhcpRuns.RunKeepsInv` | src/dhcpserver.c:214-282 | over every run the table shows the latest acknowledgement of every address unless its 24 hours are over |
| `DhcpRuns.LeasesAreExclusive` | src/dhcpserver.c:214-282 | over every run, and across wraps of the 32-bit clock: an address acknowledged to a client is not acknowledged to another within 24 hours (section 4.3.2 of RFC 2131) |
| `DhcpRuns.LeaseIsOffered` | src/dhcpserver.c:214-282 | over every run a client that looks for an address within 24 hours of an acknowledgement is offered one acknowledged to it last, and the very same if and only if no earlier entry is its own (section 4.3.1 of RFC 2131) |
| `DhcpRuns.SameAddressOffered` | src/dhcpserver.c:214-282 | so a client that was only acknowledged for one address is offered that one |
| `DhcpRuns.OtherAddressOffered` | src/dhcpserver.c:214-282 | a concrete run after which a client is offered the first of its two addresses although the second was acknowledged last |
| `DhcpOptions.Find` | src/dhcpserver.c:146-154 | on any bytes: the first place with the code among those the length bytes lead to, or none if there is none |
| `DhcpOptions.FirstListed` | src/dhcpserver.c:146-154 | in a well-formed list that is the first option with the code, and none if there is none |
| `DhcpOptions.PlacesStandard` | src/dhcpserver.c:146-154 | the places are those of section 3.1 of RFC 2132 if and only if no padding is met on the way: it is read like any other option |
| `DhcpOptions.PaddingHidesType` | src/dhcpserver.c:146-154 | a concrete DISCOVER that one byte of padding makes the server ignore |
| `DhcpOptions.KindIsRead` | src/dhcpserver.c:207-213 | from a well-formed list the message type is read as it was put there |
| `DhcpOptions.RequestedIsRead` | src/dhcpserver.c:247-257 | and so is the requested address |
| `DhcpOptions.WriteOption` | src/dhcpserver.c:156-181 | one more option behind those written; the bytes behind it stay |
| `DhcpOptions.WriteReply` | src/dhcpserver.c:284-289 | the buffer lists exactly the six options of the reply, closed by the end code |
| `DhcpOptions.ReplyReadsBack` | src/dhcpserver.c:284-288 | a reader of the reply finds its type, the server, netmask, router, name server and the lease time kept |
| `DhcpOptions.Process` | src/dhcpserver.c:206-289 | one message with any options: table, answer and option list afterwards, for DISCOVER, REQUEST and everything that is ignored |
| `DhcpOptions.AnswerExact` | src/dhcpserver.c:206-289 | a message is answered with an ACK for exactly the addresses that may be the client's, with an OFFER if and only if there is an entry to offer, and with nothing else |
| `DhcpMessages.TakeIsStep` | src/dhcpserver.c:206-289 | what a message with any options does is a step of the lease table or, if it is ignored, none |
| `DhcpMessages.MessagesKeepInv` | src/dhcpserver.c:206-289 | over every run of messages, ignored ones included, the table shows the latest acknowledgement of every address unless its 24 hours are over |
| `DhcpMessages.MessagesAreExclusive` | src/dhcpserver.c:206-289 | over every run of messages: an address acknowledged to a client by one is not acknowledged to another by a later one within 24 hours |
| `DhcpMessages.OwnAddressOffered` | src/dhcpserver.c:206-289 | over every run of messages a DISCOVER within 24 hours of an acknowledgement is answered with an OFFER of the client's own address, in the same sense |
| `DhcpMessages.AddressPassesOn` | src/dhcpserver.c:206-289 | a concrete run of three messages, from their bytes on, by which an address does go to another client, as soon as its stamp has run out |
| `HttpText.HeaderLines` | include/tcp_server/tcp_server.h:282-292 | the header loop terminates on every input |
| `HttpText.WordFound` | include/string_util.h:7-22 | a word is taken off with the blanks behind it, up to the next other character |
| `HttpText.WordExact` | include/string_util.h:7-22 | on every text: delimiters, the word, delimiters and the rest, word and delimiters as long as can be, and nothing taken off at a line end |
| `HttpText.LineFound` | include/string_util.h:28-41 | the rest of a line is everything up to its end |
| `HttpText.LineExact` | include/string_util.h:28-41 | on every text: blanks, the value and the rest from the line end on; only a whole text of blanks is a value that begins with one |
| `HttpText.FieldLineExact` | include/tcp_server/tcp_server.h:282-285 | a field line is read back as written if and only if a blank follows the colon or the value is empty; section 5 of RFC 9112 makes the blank optional |
| `HttpText.HeadersFound` | include/tcp_server/tcp_server.h:282-292 | any number of printed field lines is read back in order |
| `HttpText.ParsePrint` | include/tcp_server/tcp_server.h:273-296 | reading a printed request gives it back: first line, fields and any body (sections 2.1, 3 and 5 of RFC 9112) |
| `HttpSend.EndlessExact` | include/tcp_server/tcp_server.h:476-498 | the loop never ends if and only if after some turns data is left and every further attempt finds no space, is accepted and pushed out: such an attempt costs no retry |
| `HttpSend.NoSpaceIsEndless` | include/tcp_server/tcp_server.h:478-488 | a concrete stack on which sending anything at all never ends |
| `HttpSend.RefusalEnds` | include/tcp_server/tcp_server.h:481-489 | a concrete stack without space on which it ends after its ten retries, with nothing handed over |
| `HttpSend.SpaceEnds` | include/tcp_server/tcp_server.h:478-488 | where space comes up again and again every loop ends |
| `HttpSend.Link.SendData` | include/tcp_server/tcp_server.h:476-498 | wherever the loop ends: its result, the attempts it took, and the beginning of the data that has been handed over, all of it on success, which is certain on a reliable stack |
| `HttpSend.TurnExact` | include/tcp_server/tcp_server.h:479-495 | an accepted attempt hands over all that is left or exactly as much as there is space for, a refused one nothing |
| `HttpSend.WithinSpace` | include/tcp_server/tcp_server.h:478-496 | what has been handed over never exceeds the space of the attempts made |
| `HttpSend.AllArrive` | include/tcp_server/tcp_server.h:476-498 | sends one after the other hand a reliable stack all their bytes, in order |
| `HttpMessage.MessageBuffer.ReqUpdateStructuredViews` | include/tcp_server/tcp_server.h:273-298 | first line, headers up to the limit, and body of the received text |
| `HttpMessage.MessageBuffer.ReadHeaders` | include/tcp_server/tcp_server.h:282-292 | the loop over the moving view reads all header lines and keeps as many as fit |
| `HttpMessage.MessageBuffer.ResSetStatusLine` | include/tcp_server/tcp_server.h:301-325 | the message starts afresh with the status line |
| `HttpMessage.MessageBuffer.ResAddHeader` | include/tcp_server/tcp_server.h:328-346 | one more line in the buffer, as far as it fits; an error if and only if key and colon do not, otherwise noted from key and value on unless the limit is reached |
| `HttpMessage.KeyOutOfRange` | include/tcp_server/tcp_server.h:341 | with the 4096 bytes of the program a key of 4095 characters is an error |
| `HttpMessage.FramesExact` | include/tcp_server/tcp_server.h:354-370 | the frames of a body and what is left behind them are buffer and body, in order, up to what the turns take |
| `HttpMessage.MessageBuffer.ResWriteBody` | include/tcp_server/tcp_server.h:349-372 | whatever becomes of each frame: what has been handed over, and what the buffer holds. On a reliable stack together they are what the buffer held, an empty line if none was there, and the body up to what 32 frames take; nothing is lost if and only if it fits. An error if and only if there is a body and the buffer is full |
| `HttpMessage.MessageBuffer.WriteTwice` | include/tcp_server/tcp_server.h:349-352 | a body written in two parts arrives behind one empty line, with none in between |
| `HttpMessage.LosesTheLast` | include/tcp_server/tcp_server.h:354 | with the 4096 bytes of the program the last byte of a body of 131039 is lost |
| `HttpMessage.FailsWhenFull` | include/tcp_server/tcp_server.h:356-365 | behind a status text of 4096 characters no body can be written |
| `HttpMessage.MessageBuffer.StreamBody` | include/tcp_server/tcp_server.h:354-370 | the frame loop: frames handed over, attempts taken and bytes left are those of `FullFrames` and `LeftIn` |
| `HttpMessage.MessageBuffer.WriteFrame` | include/tcp_server/tcp_server.h:355-369 | one turn fills the buffer and streams it out exactly when it is a full frame, after which the buffer is empty whether sending succeeds or not |
| `HttpMessage.MessageBuffer.Respond` | include/webserver.h:16-24 | a whole response: what is handed over whatever becomes of each send, and on a reliable stack status line, field lines, empty line and the body up to what 32 frames take |
| `HttpMessage.ResponseArrives` | include/tcp_server/tcp_server.h:349-372 | on a reliable stack the frames of a response and the send behind them are the head and the body, in order, up to what 32 frames take |
| `DigestHex.UnhexHex` | include/crypto_storage.h:133-142 | the hex digits determine the bytes |
| `DigestHex.ExpandBackwards` | include/crypto_storage.h:134-142 | the overlapping backward loop turns 32 bytes into their 64 digits in place |
| `DigestHex.ExpandBoth` | include/crypto_storage.h:133-142 | both digests, one loop after the other over the same buffer |
| `DigestHex.SameDigits` | include/crypto_storage.h:160-166 | the comparison accepts the digits of the digest and nothing else |
| `DigestHex.CheckResponse` | include/crypto_storage.h:111-167 | the response passes if and only if it is the digest of section 3.4.1 of RFC 7616 |
| `DigestHex.InputDetermines` | include/crypto_storage.h:133-156 | turning both digests to hex loses nothing: the last hash is taken over the same bytes only where both are the same |
| `DigestHex.DigestParts` | include/crypto_storage.h:113-156 | for fields without a colon: what is hashed first, second and last has exactly the parts of section 3.4.1 of RFC 7616 between its colons, in that order |
| `DigestHex.DigitsOfBytes` | include/crypto_storage.h:133-142 | 0, 31 and 171 become 001fab |

## Left out

- Floating point: values are reals, so rounding, infinities and measurements that are not numbers are not modelled;
  the one quotient 0/0 that the code can produce is.
- History.DeviceData.AddData: requires times below 2^32, the range of the stored ones.
- History.RollUpsGroup: requires a clock that never goes back, starts an hour after the epoch and gives at most 60
  samples to a minute; `Grouping.WindowCount` and `History.SetBackRecordsTwice` show what happens beyond the last
  and the first of these.
- DeviceTable.Table.Write: a freed history is a new object in place of the old one cleared; the table of charge states
  works alike and has no model of its own, and neither has its lock.
- Emm.EnergyManager.UpdatePower: the requests are an array of their own beside the measured and control values, which
  the update only reads; the static index vectors are local lists, and their fixed capacity is not modelled.
- Emm.EnergyManager.UpdatePower: requires positive priorities and non-negative exports, maxima and export limit.
- SortEnergy.Sort: requires non-negative energies; the conversion of a negative float to a byte is undefined.
- Inverter.Connection.AdvanceContextState: every request is sent, and each answer arrives whole in one buffer; failing
  sends and answers in pieces are not events of the model. What the code does behind a null pointer is not modelled.
- Inverter.Connection.AdvanceContextState: registers are numbers; byte order, frame numbers, scale factors and the
  floating-point values decoded from them are left out, and so is whether the tracker count fits its model.
- Inverter.Connection.ParseFrame: an answer beyond the storage is dropped; what the codec does with it is its own.
- InverterDiscovery.DiscoveryTripsExact: requires that no model known from an earlier connection reaches beyond the
  storage; `InverterDiscovery.Discovery` covers those too, with the condition header by header.
- Flash.Storage.WriteMember: power loss between erasing and programming, failures of the two flash calls, and the lock
  are left out; each write is one step. Views and ranges read back without copying are plain reads.
- Dhcp.Server.Discover: the clock is given as one reading per entry; the random hardware address, the socket and the
  log are left out.
- DhcpRuns.LeasesAreExclusive: an all-zero hardware address marks a free entry and is not protected.
- DhcpOptions.Process: an option that begins in the last bytes is read beyond them, from whatever lies there, which is
  part of the message here; message fields other than the options, and the size checks of the packet, are left out.
- HttpMessage.MessageBuffer.ReqUpdateStructuredViews: the parts are copies of the text, not views into the buffer, and
  the limit on the path length is left out; so is the number parser of `include/string_util.h`.
- HttpMessage.MessageBuffer.ResAddHeader: the header noted is a copy of the text it points at, and reports the error of
  a key that does not fit as a result.
- HttpMessage.MessageBuffer.ResWriteBody: where a part of a body fills a frame exactly, the view of the body begins
  behind the emptied buffer; only that it is not empty is modelled, not its text.
- HttpMessage.MessageBuffer.ResWriteBody: where a full buffer makes the frame size negative, the model reports failure
  in place of the error.
- HttpSend.Link.SendData: requires that the loop ends; when it does not, `HttpSend.EndlessExact` says. The same holds
  for what writes through it, for each of its sends. The waiting time between retries is left out.
- HttpMessage.MessageBuffer.Respond: requires a head that leaves room for the empty line and one byte of body.
- DigestHex.CheckResponse: the hash function is any function to 32 bytes, and splitting the authorization header into
  its fields is left out, with the lookup of the user.
- The meter connection, a shorter twin of the inverter connection.
- Locks, tasks and their interleaving: each modelled operation is one step.
- The display apart from the sort and the three buttons, touch input, name resolution, network time, WiFi setup and
  the web pages: user interface and plumbing around the core.
