# Verified model of the gNB scheduler and its policy layer

The repository patches an OpenAirInterface gNB MAC scheduler (C) and steers it from a backend (Python)
that writes per-UE settings to a file. This project models the parts whose correctness depends on whole
runs or on several functions together, and proves it.

| files | subject |
|---|---|
| SlotClock, SlotCalendar, UlPreprocessor | The wrapping (frame, slot) clock, the uplink preprocessor told on ticks that never wrap, and the loop of the source, which is proved to compute exactly that |
| Tda, PowerBackoff, RbAllocator, DlAllocator | Choice of a time-domain allocation, power back-off, searches for resource blocks, slice floor and cap |
| UlHarq, UlHarqRuns, UlHarqInPlace, DlHarq | HARQ processes: operations, all their runs, and the code in place |
| PfUlOrder, PfUl, PfUlResults, PfUlJustified, PfUlLimits, PfUlInPlace | A call of `pf_ul`: collection, order, allocation |
| MacPdu, DlAssembly | MAC PDUs (section 6.1.2 of 3GPP TS 38.321): the walkers, and the downlink block builder with its round trip |
| RntiTable, SliceLimiter, SlicePolicy | Bounded tables of per-UE records, the limiter of consecutive grants, slices and their policies |
| Basics | What several modules share |
| TextCodec, PostureRegistry, PostureParsers, PostureRoundTrip | UE postures from the backend's commands through the state file to the getters of both C readers |

Code that changes state is a class or a method over arrays, proved equal to functions on values; the
results are lemmas about those functions. Assertions of the source appear as `assert` statements or as
preconditions that its callers are proved to meet.

Some properties one would expect are false of the code. For these the exact condition is proved:
the marking loops for bandwidth parts that do not start at block 0 (`RbAllocator.MarkGrantCovers`,
`DlAllocator.RetransmissionMarking`), retransmissions that reuse their TDA (`RbAllocator.ReuseTakesFreeBlocks`),
downlink grants of one block (`DlAllocator.ScanFreeFromTwo`, `DlAllocator.LastStartMatters`), the limit of UEs
per beam (`PfUlLimits.LimitExactly`), the grant limiter across a clock turn (`SliceLimiter.ThrottleShown`,
`SliceLimiter.NeverMoreThanTwiceMax`, `SliceLimiter.TwiceMaxIsReached`), integers that do not fit
(`PostureRoundTrip.ValueReadBack`, `SlicePolicy.TruncatedId`), and the later of two slots half a clock turn
apart (`SlotClock.MaxExactly`).

## Model

| member | source | states |
|---|---|---|
| SlotClock.AddDeltaRefines | gnb_patch/gNB_scheduler_ulsch.c:2712-2720 | Adding a delta on the wrapped (frame, slot) clock is adding it on the unbounded tick counter exactly if the 32-bit sum does not overflow or the clock turn divides 2^32. |
| SlotClock.AddDeltaComposes | gnb_patch/gNB_scheduler_ulsch.c:2712-2720 | Adding two deltas in sequence is adding their sum. |
| SlotClock.WrapEqual | gnb_patch/gNB_scheduler_ulsch.c:2712-2720 | Two ticks show the same (frame, slot) exactly when they lie whole turns of 1024 frames apart. |
| SlotClock.DiffAntisymmetric | gnb_patch/gNB_scheduler_ulsch.c:2721-2730 | The difference is antisymmetric and at most 512 frames either way. |
| SlotClock.DiffOfWrap | gnb_patch/gNB_scheduler_ulsch.c:2721-2730 | The difference of any two times less than 512 frames apart is their true distance, across any number of wraps. |
| SlotClock.DiffUndoesAdd | gnb_patch/gNB_scheduler_ulsch.c:2712-2730 | Within one turn the difference recovers an added delta exactly if it is below 512 frames, or is 512 frames and the start lies in the first half of the frame numbers. |
| SlotClock.MaxOfWrap | gnb_patch/gNB_scheduler_ulsch.c:2731-2738 | The maximum of two times less than 512 frames apart is the later one. |
| SlotClock.MaxExactly | gnb_patch/gNB_scheduler_ulsch.c:2731-2738 | Within one turn the maximum is the later time exactly if the times are less than 512 frames apart, or 512 frames apart with the first frame number in the half that decides for it. |
| SlotClock.TickOfWrap | gnb_patch/gNB_scheduler_ulsch.c:1966 | The tick handed to the grant limiter, frame times slots plus slot, is the unbounded tick modulo one turn. |
| SlotCalendar.RunNeverBack | gnb_patch/gNB_scheduler_ulsch.c:2763-2815 | Main result on the preprocessor: over every run of consecutive slots the pointer never moves back, and a slot that got grants, or an earlier one, is never targeted again. |
| SlotCalendar.NeverBackMeans | gnb_patch/gNB_scheduler_ulsch.c:2763-2815 | What the inductive chain of turns says of any two of them. |
| SlotCalendar.TurnsGoodTargets | gnb_patch/gNB_scheduler_ulsch.c:2771-2784 | Every target is an uplink slot, at least the processing time ahead, that some TDA reaches. |
| SlotCalendar.TurnsSweep | gnb_patch/gNB_scheduler_ulsch.c:2771-2814 | In every call each target is the first uplink slot after the one before it, and the first one the first that can be met; each turn has the grants pf_ul made. |
| SlotCalendar.SweepsMeans | gnb_patch/gNB_scheduler_ulsch.c:2771-2814 | What that says of any turn of a call. |
| SlotCalendar.TurnsWaitAtIdle | gnb_patch/gNB_scheduler_ulsch.c:2807-2811 | Outside the last downlink slot of a period the loop stops after a turn without grants and leaves the pointer at its slot, so that a later downlink slot can still serve it. |
| SlotCalendar.TurnsStopWell | gnb_patch/gNB_scheduler_ulsch.c:2771-2814 | The loop stops only when DCIs are used up, after such a turn, or at the first uplink slot left that no TDA reaches; and the pointer is where each of these leaves it. |
| SlotCalendar.TurnsElsewhere | gnb_patch/gNB_scheduler_ulsch.c:2771-2776 | Without DCIs nothing moves; outside downlink slots the pointer goes to the first uplink slot that can be met. |
| SlotCalendar.RunGoodTargets | gnb_patch/gNB_scheduler_ulsch.c:2740-2816 | Every turn of a run is made in one of its downlink slots, from which a TDA reaches the target in time. |
| SlotCalendar.LastDlSweep | gnb_patch/gNB_scheduler_ulsch.c:2769-2815 | In the last downlink slot of a period the loop stops only at a slot no TDA reaches, having visited every uplink slot before it, as long as DCIs remain. |
| SlotCalendar.SweepsAllMeans | gnb_patch/gNB_scheduler_ulsch.c:2769-2815 | A sweep misses no uplink slot of its range. |
| SlotCalendar.InSightInitially | gnb_patch/gNB_scheduler_ulsch.c:2763-2771 | A pointer within half a clock turn, less one period, of the current slot can be told from it. |
| SlotCalendar.TurnsInSight | gnb_patch/gNB_scheduler_ulsch.c:2763-2815 | A call keeps the pointer close enough to the current slot for wrapped comparison to be right, so the next call finds it so too. |
| UlPreprocessor.CalendarLawful | gnb_patch/gNB_scheduler_ulsch.c:2763-2790 | With one uplink slot per period, and k2 values far below 512 frames, the wrapped clock and the TDA list form a calendar on which the results above hold. |
| UlPreprocessor.CalendarSlots | gnb_patch/gNB_scheduler_ulsch.c:2749-2776 | What the calendar is, from the tables of a period: downlink and uplink slots, the last downlink slot, the processing time with the cell offset. |
| UlPreprocessor.CalendarReach | gnb_patch/gNB_scheduler_ulsch.c:2782-2790 | A slot is reached exactly if some TDA has the distance, less the cell offset, as its k2 and lies in the uplink symbols of the slot. |
| UlPreprocessor.PfUlSlotIsTarget | gnb_patch/gNB_scheduler_ulsch.c:1962-1965 | The slot pf_ul recomputes from the chosen k2 is exactly the slot at the pointer. |
| UlPreprocessor.Preprocessor.constructor | gnb_patch/gNB_scheduler_ulsch.c:2763-2764 | The pointer kept between calls. |
| UlPreprocessor.Preprocessor.AdvanceToUl | gnb_patch/gNB_scheduler_ulsch.c:2771-2774 | The pointer goes to the first uplink slot at or after both itself and the earliest slot that can be met; the loop terminates. |
| UlPreprocessor.Preprocessor.ChooseTda | gnb_patch/gNB_scheduler_ulsch.c:2780-2800 | k2 is positive, the TDA index is in range, and there is no TDA exactly if none takes a grant from the current slot to the target. |
| UlPreprocessor.Preprocessor.OneTurn | gnb_patch/gNB_scheduler_ulsch.c:2771-2815 | One pass: the run of pf_ul made, whether the loop goes on, the new pointer; pf_ul is only called for an uplink slot. |
| UlPreprocessor.Preprocessor.Preprocess | gnb_patch/gNB_scheduler_ulsch.c:2740-2816 | One call terminates and makes exactly the turns of the unbounded calendar, shown on the wrapped clock. |
| UlPreprocessor.Preprocessor.RunSlots | gnb_patch/gNB_scheduler_ulsch.c:2740-2816 | The same for a whole run of consecutive slots, however often the clock wraps, as long as slots without DCIs do not come so many in a row that the pointer falls out of sight. |
| SlotCalendar.BusyIsPatient | gnb_patch/gNB_scheduler_ulsch.c:2758-2771 | If every slot has DCIs there is no such stretch. |
| UlPreprocessor.TooFarAheadAborts | gnb_patch/gNB_scheduler_ulsch.c:2782-2783 | With a target more than 512 frames ahead the assertion that k2 is positive fails; this is what the bound on the pointer excludes. |
| Tda.GetNumUlTda | gnb_patch/gNB_scheduler_ulsch.c:52-101 | With the list ordered by k2 and masks nested within one k2, exactly the TDAs that suit are returned; the closing assertion of the source holds. |
| Tda.SuitsMeaning | gnb_patch/gNB_scheduler_ulsch.c:58-80 | Containment of symbol bitmaps is containment of the symbol intervals. |
| Tda.GetMaxRbRange | gnb_patch/gNB_scheduler_ulsch.c:103-129 | Start and length are the first longest run of free resource blocks; the empty run is put at the start of the range. |
| Tda.FirstLongestMeans | gnb_patch/gNB_scheduler_ulsch.c:103-129 | The run is free, and any other free stretch is shorter, or as long and not earlier. |
| Tda.GetBestUlTda | gnb_patch/gNB_scheduler_ulsch.c:131-160 | The first TDA that maximises symbols times longest free run, with that run; if nothing is free the first TDA and the range unchanged. |
| Tda.BestMeans | gnb_patch/gNB_scheduler_ulsch.c:131-160 | No TDA has more symbols times usable neighbouring blocks than the one chosen has in the range returned. |
| Tda.ScorePositive | gnb_patch/gNB_scheduler_ulsch.c:139-159 | A score is positive exactly if the TDA has symbols and some block is free under its mask. |
| PowerBackoff.MaxMcsMinRb | gnb_patch/gNB_scheduler_ulsch.c:1743-1780 | The result is the first point that fits on the path "fewer blocks, then lower MCS", or its end. |
| PowerBackoff.FirstFitUnique | gnb_patch/gNB_scheduler_ulsch.c:1743-1780 | That description determines the result. |
| PowerBackoff.FirstFitMonotone | gnb_patch/gNB_scheduler_ulsch.c:1743-1780 | A higher power limit never costs blocks or MCS steps. |
| RbAllocator.FindFree | gnb_patch/gNB_scheduler_ulsch.c:2229-2230 | The first loop of the search returns the first free block, or the size of the BWP. |
| RbAllocator.ExtendRun | gnb_patch/gNB_scheduler_ulsch.c:2234-2236 | The second loop returns how far blocks are free behind the start. |
| RbAllocator.FindUlRun | gnb_patch/gNB_scheduler_ulsch.c:2225-2236 | Both loops together. |
| RbAllocator.UlFitsSound | gnb_patch/gNB_scheduler_ulsch.c:2225-2251 | With a minimum grant of at least one block, a request that passes the check was given that many free blocks of its BWP. |
| RbAllocator.UlFitsExactly | gnb_patch/gNB_scheduler_ulsch.c:2225-2251 | A request passes exactly if the first maximal free run of the BWP holds the minimum. |
| RbAllocator.LaterRunIgnored | gnb_patch/gNB_scheduler_ulsch.c:2225-2251 | A longer free run behind a short one is not found. |
| RbAllocator.ClampBounds | gnb_patch/gNB_scheduler_ulsch.c:2305-2318 | After floor and cap the size is within the run, at most the cap, and at least the floor as far as the run allows unless the cap is below the floor. |
| RbAllocator.ClampExactly | gnb_patch/gNB_scheduler_ulsch.c:2305-2318 | The same as a formula of minima and maxima. |
| RbAllocator.ClampKeepsMinimum | gnb_patch/gNB_scheduler_ulsch.c:2305-2318 | The minimum grant survives the clamp for every size exactly if the cap is off or not below it. |
| RbAllocator.UlGrantSound | gnb_patch/gNB_scheduler_ulsch.c:2225-2318 | Search, power back-off, demand and clamp together: every new grant lies on free blocks of its BWP and has the promised size. |
| RbAllocator.UlGrantSize | gnb_patch/gNB_scheduler_ulsch.c:2225-2318 | The exact size of a grant from power back-off, demand, inactivity, floor and cap. |
| RbAllocator.UlRunLength | gnb_patch/gNB_scheduler_ulsch.c:2231-2236 | An inactive UE looks no further than its minimum, another takes the whole free run. |
| RbAllocator.MarkGrantExactly | gnb_patch/gNB_scheduler_ulsch.c:2361-2363 | The marking loop adds the symbols to the blocks of the grant but its last bwpStart ones, and changes nothing else. |
| RbAllocator.MarkGrantCovers | gnb_patch/gNB_scheduler_ulsch.c:2361-2363 | The marking loop marks the whole grant exactly if the BWP starts at block 0. |
| RbAllocator.GrantsOverlapOffZero | gnb_patch/gNB_scheduler_ulsch.c:2361-2363 | With a BWP that starts elsewhere the same block can be granted twice. |
| RbAllocator.GrantUl | gnb_patch/gNB_scheduler_ulsch.c:2225-2363 | One new uplink grant on the mask in place: the grant and the whole new mask. |
| RbAllocator.FindReuse | gnb_patch/gNB_scheduler_ulsch.c:1821-1838 | Search of a retransmission that keeps its TDA. |
| RbAllocator.ReuseTakesFreeBlocks | gnb_patch/gNB_scheduler_ulsch.c:1821-1838 | Where that search passes, all blocks it takes are free exactly if the check of a new grant would pass too with that many blocks as its minimum. |
| RbAllocator.ReuseSucceeds | gnb_patch/gNB_scheduler_ulsch.c:1821-1838 | It never refuses where the first free run is long enough. |
| RbAllocator.ReuseTakesUsedBlock | gnb_patch/gNB_scheduler_ulsch.c:1821-1838 | It can take a block in use. |
| RbAllocator.FindRefit | gnb_patch/gNB_scheduler_ulsch.c:1844-1848 | Search of a retransmission with another TDA: the whole first free run. |
| DlAllocator.FirstFit | gnb_patch/gNB_scheduler_dlsch.c:484-505 | The downlink retransmission search terminates, succeeds exactly if a free run of the size starts before the last block, and then returns the smallest such start. |
| DlAllocator.LastStartMatters | gnb_patch/gNB_scheduler_dlsch.c:484-505 | For two or more blocks that is every free run of the BWP; for one block it misses exactly the case that only the last block is free. |
| DlAllocator.RetransmissionMarking | gnb_patch/gNB_scheduler_dlsch.c:594-595 | The marking loop marks the blocks found exactly if the run starts at block 0. |
| DlAllocator.ScanDl | gnb_patch/gNB_scheduler_dlsch.c:869-880 | The scan for a new downlink grant. |
| DlAllocator.ScanFreeFromTwo | gnb_patch/gNB_scheduler_dlsch.c:869-892 | A scan that passes the minimum check is a free run, for every mask, exactly if the minimum is two blocks or more. |
| DlAllocator.DlGrantSound | gnb_patch/gNB_scheduler_dlsch.c:869-975 | Scan, demand and slice clamp together: a grant lies on free blocks of the BWP, reaches the floor as far as the run allows and stays under the cap. |
| DlAllocator.DlSizeExactly | gnb_patch/gNB_scheduler_dlsch.c:942-975 | The exact size of a grant from demand, scan, floor and cap. |
| DlAllocator.GrantDl | gnb_patch/gNB_scheduler_dlsch.c:869-987 | One new downlink grant on the mask in place. |
| UlHarq.FreshInv | gnb_patch/gNB_scheduler_ulsch.c:646-728 | A fresh UE satisfies the HARQ invariant: lists partition the process ids, waiting flag, rounds and saved process id match the list. |
| UlHarq.HandleInv | gnb_patch/gNB_scheduler_ulsch.c:671-728 | Feedback keeps the invariant; the loop terminates. |
| UlHarq.TakeEffect | gnb_patch/gNB_scheduler_ulsch.c:2482-2503 | The process a grant takes is known, not waiting, within its rounds, and on no list afterwards. |
| UlHarq.PostInv | gnb_patch/gNB_scheduler_ulsch.c:2482-2528 | Posting a grant keeps the invariant, and the assertions of the source hold. |
| UlHarq.HandleExactly | gnb_patch/gNB_scheduler_ulsch.c:684-727 | Exact effect of feedback: processes queued before the reported one fail in order, the reported one is finished, retried or aborted by its CRC, the rest is untouched; without the id the whole list is drained as failed. |
| UlHarq.HandleHead | gnb_patch/gNB_scheduler_ulsch.c:705-727 | Feedback for the head of the list, in numbers: after a failure with rounds left it is the next round at the end of the retransmission list and no error; in the last round it is given up; after success it is available again. |
| UlHarq.HandleLost | gnb_patch/gNB_scheduler_ulsch.c:685-702 | Feedback for a process behind the head: the head fails first, in the same way. |
| UlHarq.ReceiveMeans | gnb_patch/gNB_scheduler_ulsch.c:1029-1051 | A PDU without HARQ process changes nothing; a received one is a decoded block of its length, a lost one a failed block. |
| UlHarq.PostNewExactly | gnb_patch/gNB_scheduler_ulsch.c:2489-2528 | A new grant in full: lists, waiting flag, slot, saved grant, bytes and what goes out. |
| UlHarq.PostAgainExactly | gnb_patch/gNB_scheduler_ulsch.c:2496-2528 | A retransmission in full. |
| UlHarq.RetransmissionExactly | gnb_patch/gNB_scheduler_ulsch.c:1818-1901 | A retransmission is granted exactly if the resources of its attempt fit, give the saved size, and a CCE is free. |
| UlHarqRuns.RetransmissionLegitimate | gnb_patch/gNB_scheduler_ulsch.c:1819 | The saved grant of a process in retransmission names that process, so the assertion holds. |
| UlHarqRuns.RunsAreOk | gnb_patch/gNB_scheduler_ulsch.c:646-728 | Main result: over every run of grants, retransmissions, received and lost PDUs the invariant holds and every transmission is a legal successor of the last one on its process. |
| UlHarqRuns.SuccessiveTransmissions | gnb_patch/gNB_scheduler_ulsch.c:2489-2528 | Of two successive transmissions on a process a new block toggles the NDI; otherwise NDI and block size repeat in the next round. |
| UlHarqRuns.BlockTransmissions | gnb_patch/gNB_scheduler_ulsch.c:650-727 | All transmissions of a block carry one NDI and one size, and there are at most harq_round_max of them. |
| UlHarqRuns.GivenUpAfterAllRounds | gnb_patch/gNB_scheduler_ulsch.c:695-718 | Over every run: a block that fails, by its own feedback or lost, is queued for retransmission exactly if it was sent fewer than harq_round_max times, and given up exactly if it was sent that often. |
| UlHarqRuns.LostMeans | gnb_patch/gNB_scheduler_ulsch.c:684-702 | Lost are the processes queued before the reported one, or all if that is not queued. |
| UlHarqRuns.NextBlockToggles | gnb_patch/gNB_scheduler_ulsch.c:650-653 | The next block on a process carries the other NDI than all transmissions of this one. |
| UlHarqRuns.PostFollows | gnb_patch/gNB_scheduler_ulsch.c:2489-2528 | What a post puts on air continues the history of its process. |
| UlHarqRuns.SduConserves | gnb_patch/gNB_scheduler_ulsch.c:1029-1034 | A received SDU keeps sched_ul_bytes equal to the block sizes of the busy processes exactly if it has the size of the block it acknowledges, or is larger and no process is busy afterwards. |
| UlHarqRuns.PostConserves | gnb_patch/gNB_scheduler_ulsch.c:2528 | A post keeps them equal. |
| UlHarqRuns.RunsConserve | gnb_patch/gNB_scheduler_ulsch.c:666-1034 | Conservation over every run in which received SDUs are as expected; and in none of its steps does a clamp at 0 act. |
| UlHarqRuns.PduNeverClamps | gnb_patch/gNB_scheduler_ulsch.c:666-1034 | Neither the subtraction of an expected SDU nor any abort that its feedback, or a lost PDU, leads to goes below 0. |
| UlHarqInPlace.UlHarqCtrl.constructor | gnb_patch/gNB_scheduler_ulsch.c:671-682 | A UE with all processes available. |
| UlHarqInPlace.UlHarqCtrl.FinishUl | gnb_patch/gNB_scheduler_ulsch.c:646-654 | In place, equal to the function whose runs are proved correct. |
| UlHarqInPlace.UlHarqCtrl.AbortUl | gnb_patch/gNB_scheduler_ulsch.c:656-669 | The same for giving up a block. |
| UlHarqInPlace.UlHarqCtrl.FailUl | gnb_patch/gNB_scheduler_ulsch.c:695-700 | The same for a failed transmission. |
| UlHarqInPlace.UlHarqCtrl.HandleUl | gnb_patch/gNB_scheduler_ulsch.c:671-728 | The same for feedback, with both loops. |
| UlHarqInPlace.UlHarqCtrl.ReceiveUl | gnb_patch/gNB_scheduler_ulsch.c:1029-1051 | The same for a received or lost PDU. |
| UlHarqInPlace.UlHarqCtrl.TakeProcess | gnb_patch/gNB_scheduler_ulsch.c:2482-2503 | The same for the choice of a process. |
| UlHarqInPlace.UlHarqCtrl.PostProcess | gnb_patch/gNB_scheduler_ulsch.c:2482-2530 | The same for a grant; the assertions of the source are proved. |
| UlHarqInPlace.UlHarqCtrl.AllocateRetransmission | gnb_patch/gNB_scheduler_ulsch.c:1806-1910 | The same for a retransmission; its block size assertion is proved. |
| DlHarq.ScheduleTakes | gnb_patch/gNB_scheduler_dlsch.c:1182-1202 | The process a downlink grant takes leaves its list and no other process moves. |
| DlHarq.ScheduleInv | gnb_patch/gNB_scheduler_dlsch.c:1182-1217 | Scheduling keeps the lists a duplicate-free partition, with or without feedback, and the process taken is not waiting. |
| DlHarq.ScheduleExactly | gnb_patch/gNB_scheduler_dlsch.c:1182-1217 | A scheduled grant in full. |
| DlHarq.RetransmissionBlock | gnb_patch/gNB_scheduler_dlsch.c:1182-1371 | A retransmission is built anew, under a new NDI, exactly if it gets no feedback; its size is that of the saved block, as the source asserts. |
| DlHarq.NewBlock | gnb_patch/gNB_scheduler_dlsch.c:1182-1192 | A new grant takes the first free process and saves itself there. |
| DlHarq.DlHarqCtrl.constructor | gnb_patch/gNB_scheduler_dlsch.c:375-383 | A UE with all processes available. |
| DlHarq.DlHarqCtrl.FinishDl | gnb_patch/gNB_scheduler_dlsch.c:375-383 | In place, equal to the value function. |
| DlHarq.DlHarqCtrl.TakeDl | gnb_patch/gNB_scheduler_dlsch.c:1182-1202 | The same for the choice of a process. |
| DlHarq.DlHarqCtrl.ScheduleUe | gnb_patch/gNB_scheduler_dlsch.c:1182-1217 | The same for a scheduled grant; the three assertions of the source are proved. |
| PfUlOrder.ComparePreorder | gnb_patch/gNB_scheduler_ulsch.c:1929-1945 | The comparator is a total preorder, as qsort needs. |
| PfUlOrder.SortedMeans | gnb_patch/gNB_scheduler_ulsch.c:1929-1945 | Sorted means inactive UEs first, then descending coefficients, and conversely. |
| PfUlOrder.Qsort | gnb_patch/gNB_scheduler_ulsch.c:2170 | Every list has a sorted permutation; callers use nothing else of qsort. |
| PfUlOrder.CoefficientPositive | gnb_patch/gNB_scheduler_ulsch.c:2123-2137 | With positive factors a coefficient is 0 exactly for a throttled UE. |
| PfUlOrder.CoefficientScales | gnb_patch/gNB_scheduler_ulsch.c:2131-2137 | Each factor scales the coefficient and alone is the coefficient. |
| PfUlOrder.ThrottledLast | gnb_patch/gNB_scheduler_ulsch.c:2123-2170 | In a sorted list only throttled active UEs follow a throttled active one. |
| PfUl.GatherCands | gnb_patch/gNB_scheduler_ulsch.c:1984-2168 | The first loop collects different UEs in list order, none with a retransmission, each as its state says. |
| PfUl.OrderReady | gnb_patch/gNB_scheduler_ulsch.c:2053-2170 | However qsort orders them, candidates are different UEs with a free HARQ process each. |
| PfUl.CandMeans | gnb_patch/gNB_scheduler_ulsch.c:2053-2080 | Who may be given new data: a free process, no interruption, and more data reported than is scheduled, or due to be polled; which grants are for inactivity. |
| PfUl.CandCoefficient | gnb_patch/gNB_scheduler_ulsch.c:2106-2137 | The coefficient of a candidate from rate, slice weight, small burst and its own factor. |
| PfUl.ThrottledMeans | gnb_patch/gNB_scheduler_ulsch.c:2126-2129 | A UE is throttled if it was granted at each of the last ticks, as many as its own limit says, or without one its slice. |
| PfUl.RetransmitExactly | gnb_patch/gNB_scheduler_ulsch.c:2022-2046 | What a retransmission does to the beam: one UE less, its blocks marked, the budget as it was. |
| PfUl.GrantChanges | gnb_patch/gNB_scheduler_ulsch.c:2359-2366 | What a new grant does to the beam and to the saved grant of its process. |
| PfUl.ServeElsewhere | gnb_patch/gNB_scheduler_ulsch.c:2174-2369 | Serving a UE changes the HARQ state of no other. |
| PfUlResults.CallKeeps | gnb_patch/gNB_scheduler_ulsch.c:1947-2375 | Every call keeps the HARQ invariant of every UE, charges each beam one UE per grant and the blocks of its new grants, and places new grants correctly. |
| PfUlResults.CountIsGrants | gnb_patch/gNB_scheduler_ulsch.c:2370-2374 | The returned count is the number of grants made, so the closing assertion holds. |
| PfUlResults.PostRound | gnb_patch/gNB_scheduler_ulsch.c:2489-2503 | A new grant starts a block; a retransmission does not. |
| PfUlResults.NewGrantsDisjoint | gnb_patch/gNB_scheduler_ulsch.c:2361-2363 | New grants of one call on a beam lie on blocks free before the call, and are disjoint if their BWPs start at block 0. |
| PfUlResults.OneGrantPerUe | gnb_patch/gNB_scheduler_ulsch.c:1984-2369 | A call grants a UE at most once, retransmissions first. |
| PfUlResults.GrantedInOrder | gnb_patch/gNB_scheduler_ulsch.c:2170-2369 | New grants are made in sorted order. |
| PfUlResults.ThrottledServedLast | gnb_patch/gNB_scheduler_ulsch.c:2123-2170 | Once a throttled UE with data was granted, only throttled UEs with data follow. |
| PfUlResults.ThrottlingOnlyReorders | gnb_patch/gNB_scheduler_ulsch.c:2136-2137 | A throttled UE is not refused: at its turn it is given what it would get anyway. |
| PfUlJustified.GrantsJustified | gnb_patch/gNB_scheduler_ulsch.c:1984-2366 | Main result: every grant is justified by the state before the call: a retransmission sends the saved block of the head of the retransmission list; new data goes to a UE without pending retransmission, with data or due for polling, on its first free process. |
| PfUlJustified.NewDataHasReason | gnb_patch/gNB_scheduler_ulsch.c:2053-2080 | In plain numbers: every new grant went to a UE with more data reported than was scheduled, or due to be polled, without failure, interruption or pending retransmission. |
| PfUlJustified.RetransmissionHasReason | gnb_patch/gNB_scheduler_ulsch.c:2022-2046 | Every retransmission repeats the saved block of the head of the list. |
| PfUlJustified.EveryoneConsidered | gnb_patch/gNB_scheduler_ulsch.c:1984-2168 | If limits remain after the first loop, it left nobody out: every UE that may be given new data is a candidate, every possible retransmission was granted. |
| PfUlJustified.EveryoneWithReasonConsidered | gnb_patch/gNB_scheduler_ulsch.c:1984-2168 | The converse in plain numbers, while limits remain after the first loop. |
| PfUlJustified.NewGrantExactly | gnb_patch/gNB_scheduler_ulsch.c:2225-2318 | What a candidate is granted at its turn, from the first free block on, by power, demand and slice. |
| PfUlJustified.GrantedExactly | gnb_patch/gNB_scheduler_ulsch.c:2174-2251 | A candidate is given new data exactly if at its turn its beam has UEs and blocks left, DCI beam and CCE are there, and the first free run holds its minimum. |
| PfUlLimits.LimitExactly | gnb_patch/gNB_scheduler_ulsch.c:1972-2187 | All calls of a cell keep the limit of UEs on all its beams exactly if it has at most one beam, a limit of 0, HARQ disabled, or fewer than two HARQ rounds. |
| PfUlLimits.LimitHolds | gnb_patch/gNB_scheduler_ulsch.c:1972-2187 | In such a cell no call makes more grants on a beam than the limit allows. |
| PfUlLimits.LimitFails | gnb_patch/gNB_scheduler_ulsch.c:1998-2002 | In any other cell some call, of UEs in states they can reach, exceeds the limit on one beam: the first loop only looks at the sum over the beams. |
| PfUlLimits.RetransmittingReached | gnb_patch/gNB_scheduler_ulsch.c:684-727 | The state of those UEs is that after one grant whose PDU was lost. |
| PfUlLimits.BlocksWithinBudget | gnb_patch/gNB_scheduler_ulsch.c:2187-2361 | New grants on a beam exceed its budget of blocks by no more than the last of them exceeds the minimum of its UE; all others lay within the budget. |
| PfUlLimits.ThrottledIsGranted | gnb_patch/gNB_scheduler_ulsch.c:2128-2361 | A call that grants a throttled UE, with more blocks than the budget had. |
| PfUlInPlace.Scheduler.constructor | gnb_patch/gNB_scheduler_ulsch.c:1970-1975 | The state of a call. |
| PfUlInPlace.Scheduler.TotalRemaining | gnb_patch/gNB_scheduler_ulsch.c:1999-2001 | The loop over the beams computes the sum. |
| PfUlInPlace.Scheduler.ChargeUe | gnb_patch/gNB_scheduler_ulsch.c:2359-2366 | A post in place, and one UE less for the beam. |
| PfUlInPlace.Scheduler.RetransmitUe | gnb_patch/gNB_scheduler_ulsch.c:2022-2046 | A retransmission in place; the block budget is not charged. |
| PfUlInPlace.Scheduler.VisitUe | gnb_patch/gNB_scheduler_ulsch.c:1984-2168 | One turn of the first loop, equal to the value function. |
| PfUlInPlace.Scheduler.FindGrant | gnb_patch/gNB_scheduler_ulsch.c:2179-2318 | The search for a new grant in place, up to its marking. |
| PfUlInPlace.Scheduler.ServeCand | gnb_patch/gNB_scheduler_ulsch.c:2174-2369 | One turn of the second loop. |
| PfUlInPlace.Scheduler.ChargeNew | gnb_patch/gNB_scheduler_ulsch.c:2359-2366 | The state changes of a new grant. |
| PfUlInPlace.Scheduler.Collect | gnb_patch/gNB_scheduler_ulsch.c:1984-2168 | The whole first loop. |
| PfUlInPlace.Scheduler.ServeAll | gnb_patch/gNB_scheduler_ulsch.c:2174-2369 | The whole second loop. |
| PfUlInPlace.Scheduler.PfUl | gnb_patch/gNB_scheduler_ulsch.c:1947-2375 | A call in place is a call as the results above describe it, for some order qsort may leave; the count and the closing assertion are proved. |
| PfUlInPlace.MarkBlocks | gnb_patch/gNB_scheduler_ulsch.c:1916-1917 | The marking loop of a retransmission. |
| MacPdu.DecodeSubHeader | gnb_patch/gNB_scheduler_ulsch.c:294-339 | The decoder reads a sub-header of the standard back exactly if the payload has the fixed size of its LCID, or fits the length field, or is empty for an unknown LCID. |
| MacPdu.Walk | gnb_patch/gNB_scheduler_ulsch.c:411-433 | All sub-PDUs found lie within the PDU and are shorter than 65536 bytes. |
| MacPdu.WalkAdjacent | gnb_patch/gNB_scheduler_ulsch.c:411-433 | They lie one behind the other from the start. |
| MacPdu.AdjacentMeans | gnb_patch/gNB_scheduler_ulsch.c:411-433 | That is: each header begins where the payload before it ends. |
| MacPdu.CrntiLookahead | gnb_patch/gNB_scheduler_ulsch.c:341-377 | The lookahead returns the first C-RNTI before padding, the end or an invalid sub-PDU, 0 if there is none; it terminates and reads in bounds. |
| MacPdu.CrntiMeans | gnb_patch/gNB_scheduler_ulsch.c:341-377 | The lookahead answers the value, high byte first, of the first C-RNTI element of the walk, and 0 without one. |
| MacPdu.CrntiStep | gnb_patch/gNB_scheduler_ulsch.c:341-377 | What one sub-PDU contributes to that. |
| MacPdu.EstimateLongBsr | gnb_patch/gNB_scheduler_ulsch.c:235-266 | The sum over the reporting groups, each read behind those before it. |
| MacPdu.LongBsrSums | gnb_patch/gNB_scheduler_ulsch.c:235-266 | A long report is the sum of the table values of the buffer size fields right behind its flags, one per flagged group, and of no other byte. |
| MacPdu.FlagsAreBits | gnb_patch/gNB_scheduler_ulsch.c:240-258 | Flag n is bit n. |
| MacPdu.RankIsBitCount | gnb_patch/gNB_scheduler_ulsch.c:240-258 | The number of flagged groups is the number of set bits. |
| MacPdu.BsrIndexMeans | gnb_patch/gNB_scheduler_ulsch.c:214-233 | A report of 0 is the first entry of its table; a positive one is taken one entry higher, up to the last; the short report is five bits. |
| MacPdu.EstimateOne | gnb_patch/gNB_scheduler_ulsch.c:516-613 | What one sub-PDU makes of the estimate, by LCID number. |
| MacPdu.LcidTables | gnb_patch/gNB_scheduler_ulsch.c:300-333 | LCIDs with a length, and those processed, by number. |
| MacPdu.ProcessedIsPrefix | gnb_patch/gNB_scheduler_ulsch.c:411-643 | The sub-PDUs processed are the first of the walk, up to one at which processing stops; the answer is -1 exactly if that has an LCID without a case. |
| MacPdu.EstimateClosedForm | gnb_patch/gNB_scheduler_ulsch.c:516-613 | The buffer estimate is the last report, or the old value, less the data bytes on configured bearers after it, and not below 0. |
| MacPdu.EstimateStep | gnb_patch/gNB_scheduler_ulsch.c:411-640 | What one sub-PDU contributes to the estimate. |
| MacPdu.ProcessPdu | gnb_patch/gNB_scheduler_ulsch.c:379-644 | Walking any PDU terminates, keeps the remaining length from underflowing, and leaves that estimate and that answer. |
| DlAssembly.FillAllFits | gnb_patch/gNB_scheduler_dlsch.c:1398-1446 | Everything fetched from RLC fits; no SDU is empty or dropped; each belongs to a channel that had data. |
| DlAssembly.RequestExactly | gnb_patch/gNB_scheduler_dlsch.c:1408-1443 | RLC is asked for what the channel has, or what fits behind a header if that is less; the answer is taken whole. |
| DlAssembly.ChannelEnds | gnb_patch/gNB_scheduler_dlsch.c:1404-1433 | A channel ends with an empty answer, or with no more than four bytes left. |
| DlAssembly.FullAnswerFills | gnb_patch/gNB_scheduler_dlsch.c:1408-1443 | A channel with at least what fits, that gets it, fills the block. |
| DlAssembly.WholeBufferTaken | gnb_patch/gNB_scheduler_dlsch.c:1408-1443 | A channel with less is asked for all of it, and all of it is taken. |
| DlAssembly.ChannelServed | gnb_patch/gNB_scheduler_dlsch.c:1395-1403 | Channels come in order; one with data is served, one without is not asked. |
| DlAssembly.BackloggedChannelFills | gnb_patch/gNB_scheduler_dlsch.c:1395-1446 | The same for whole blocks, whatever channels come before and after. |
| DlAssembly.OneChannelBlock | gnb_patch/gNB_scheduler_dlsch.c:1385-1480 | A block starts empty and with the first answer of RLC. |
| DlAssembly.EveryChannelAsked | gnb_patch/gNB_scheduler_dlsch.c:1395-1446 | If the block is not full, RLC was asked once per SDU and once more per channel with data: none was left out. |
| DlAssembly.PayloadBytesAre | gnb_patch/gNB_scheduler_dlsch.c:1441-1442 | The bytes counted are those of the encoding without its headers. |
| DlAssembly.PaddingIsZeros | gnb_patch/gNB_scheduler_dlsch.c:1473-1480 | Padding is one sub-header and zeros; when a phy-test block is noise. |
| DlAssembly.ChannelDrained | gnb_patch/gNB_scheduler_dlsch.c:1408-1443 | A channel is left only if at most four bytes remain or RLC had nothing more. |
| DlAssembly.ChannelOrder | gnb_patch/gNB_scheduler_dlsch.c:1400-1446 | SDUs come in the order of the channels. |
| DlAssembly.WriteSdu | gnb_patch/gNB_scheduler_dlsch.c:1408-1440 | A long sub-header and the payload, and nothing else, are written. |
| DlAssembly.WriteChannel | gnb_patch/gNB_scheduler_dlsch.c:1400-1446 | One channel in place. |
| DlAssembly.WritePadding | gnb_patch/gNB_scheduler_dlsch.c:1473-1480 | A padding sub-header and zeros up to the last byte. |
| DlAssembly.Assemble | gnb_patch/gNB_scheduler_dlsch.c:1385-1480 | The whole transport block, byte for byte, in place behind the control elements, with its SDU and byte counts; in phy-test a block without data is noise. |
| DlAssembly.AssembleData | gnb_patch/gNB_scheduler_dlsch.c:1395-1480 | The loop over the channels and the padding. |
| DlAssembly.WalkTestBlock | gnb_patch/gNB_scheduler_dlsch.c:1447-1470 | A block of noise reads as padding. |
| DlAssembly.DecodeLongHeader | gnb_patch/gNB_scheduler_ulsch.c:294-339 | The decoder reads a long header back exactly for LCIDs with a length field and lengths below 65536. |
| DlAssembly.WalkAssembled | gnb_patch/gNB_scheduler_dlsch.c:1385-1480 | Walking an assembled block yields the SDUs in order and then padding or the end exactly if all of them are such. |
| DlAssembly.PlacedPayload | gnb_patch/gNB_scheduler_dlsch.c:1408-1440 | The payloads lie where the walker finds them. |
| DlAssembly.AssembledRoundTrip | gnb_patch/gNB_scheduler_dlsch.c:1385-1480 | Main result: for any RLC answers the block has exactly TBS bytes, and for LCIDs with a length field the walker recovers every LCID and payload in order, then padding or the end, exactly if no answer has 65536 bytes or more. |
| RntiTable.StoreLookup | gnb_patch/rk_slice_policy.c:34-54 | Storing a record changes one record and no other; it is lost exactly if the table is full and the RNTI new. |
| RntiTable.RunLookup | gnb_patch/rk_slice_policy.c:89-112 | What a table holds after any events: for every RNTI that got a record its own events in order, for others nothing. |
| RntiTable.AllTracked | gnb_patch/rk_slice_policy.c:89-112 | With no more RNTIs than slots everyone gets a record. |
| RntiTable.Table.constructor | gnb_patch/rk_slice_policy.c:21 | An empty table. |
| RntiTable.Table.FindSlot | gnb_patch/rk_ue_la_policy.c:62-69 | The first slot of an RNTI. |
| RntiTable.Table.FindOrCreate | gnb_patch/rk_slice_policy.c:34-54 | Search, then create in the first free slot. |
| RntiTable.Table.FindOrCreateOnePass | gnb_patch/rk_ue_dl_policy.c:38-58 | The one-pass variant has the same effect. |
| SliceLimiter.CounterMeasures | gnb_patch/rk_slice_policy.c:144-170 | For any ticks: the counter is the length of the longest row of grants, at ticks that count up by one, that ends with the last grant. |
| SliceLimiter.ThrottleExact | gnb_patch/rk_slice_policy.c:114-142 | For any ticks: the throttle fires exactly if the last max grants were made at the max ticks before now. |
| SliceLimiter.SkippedTickReleases | gnb_patch/rk_slice_policy.c:114-142 | For any ticks: one skipped tick releases a UE. |
| SliceLimiter.NeverMoreThanMax | gnb_patch/rk_slice_policy.c:114-170 | For any ticks: a caller that honours the throttle never makes max + 1 grants at ticks that count up by one. |
| SliceLimiter.ThrottleGrowing | gnb_patch/rk_slice_policy.c:114-142 | For growing ticks the throttle fires exactly if the last max ticks were all granted. |
| SliceLimiter.NeverMoreThanMaxGrowing | gnb_patch/rk_slice_policy.c:114-170 | For growing ticks no max + 1 ticks in a row are granted. |
| SliceLimiter.ThrottleShown | gnb_patch/gNB_scheduler_ulsch.c:1966-2129 | For the ticks of a clock that turns, and pauses of at most one turn: the throttle fires exactly if the last max ticks were all granted and none of them was before the turn. |
| SliceLimiter.StaleThrottle | gnb_patch/gNB_scheduler_ulsch.c:1966-2129 | After a longer pause it can fire although the tick before was not granted. |
| SliceLimiter.RowsCrossTurn | gnb_patch/gNB_scheduler_ulsch.c:1966-2129 | A caller that honours the throttle grants max + 1 ticks in a row only across a turn, ending within the first max ticks of it. |
| SliceLimiter.NeverMoreThanTwiceMax | gnb_patch/gNB_scheduler_ulsch.c:1966-2129 | So it never grants more than 2 max ticks in a row. |
| SliceLimiter.TwiceMaxIsReached | gnb_patch/gNB_scheduler_ulsch.c:1966-2129 | It can grant that many: for every max up to one turn there is such a history. |
| SliceLimiter.ThrottleAfterGrants | gnb_patch/rk_slice_policy.c:87-170 | For any ticks: the same for the table of all UEs and both directions, after any grants. |
| SliceLimiter.ThrottleAcrossTurns | gnb_patch/rk_slice_policy.c:87-170 | The table, for the ticks of a clock that turns. |
| SliceLimiter.SliceRuntime.constructor | gnb_patch/rk_slice_policy.c:21 | An empty table of counters. |
| SliceLimiter.SliceRuntime.ShouldThrottle | gnb_patch/rk_slice_policy.c:114-142 | The query in place. |
| SliceLimiter.SliceRuntime.NoteGrant | gnb_patch/rk_slice_policy.c:144-170 | The update in place. |
| SlicePolicy.IdAfterUpdates | gnb_patch/rk_slice_policy.c:57-85 | After any updates of at most 256 UEs a UE is in the slice last sent for it, in 16 bits, or in slice 0. |
| SlicePolicy.TruncatedId | gnb_patch/rk_slice_policy.c:57-67 | Storing an id in 16 bits changes the policy exactly if an id outside them lands on a slice. |
| SlicePolicy.GetRow | gnb_patch/rk_slice_policy.c:172-183 | The row of a known slice carries its id; all others get row 0. |
| SlicePolicy.PolicyLimits | gnb_patch/rk_slice_policy.c:23-32 | Every slice has positive weights and no cap below its floor. |
| SlicePolicy.GrantMeetsSlice | gnb_patch/gNB_scheduler_ulsch.c:2305-2318 | So every uplink grant reaches the floor of its slice as far as the run allows, under its cap. |
| SlicePolicy.SliceAssoc.constructor | gnb_patch/rk_slice_policy.c:6 | An empty table of associations. |
| SlicePolicy.SliceAssoc.UpdateByRnti | gnb_patch/rk_slice_policy.c:57-67 | The update in place. |
| SlicePolicy.SliceAssoc.GetId | gnb_patch/rk_slice_policy.c:71-85 | The lookup in place. |
| TextCodec.AtoiOfStr | gnb_patch/rk_ue_la_policy.c:71-78 | Reading a printed integer gives what strtol and the conversion to int leave of it, and gives it back exactly if it fits an int. |
| TextCodec.ReadIntForms | gnb_patch/rk_ue_la_policy.c:71-78 | Leading white space and signs are passed over, and reading stops at what is no digit. |
| TextCodec.Saturated | gnb_patch/rk_ue_la_policy.c:71-78 | Beyond 64 bits the largest value is read: -1 as an int, 65535 as an RNTI. |
| TextCodec.StrtoulOfStr | gnb_patch/rk_ue_dl_policy.c:86 | Reading a printed RNTI back gives it modulo 2^16. |
| TextCodec.TokensOfLine | gnb_patch/rk_ue_la_policy.c:122-125 | Tokenising joined tokens gives the tokens. |
| TextCodec.TokensAt | gnb_patch/rk_ue_la_policy.c:122-125 | Each of the four delimiters ends a token. |
| TextCodec.ChunkMeans | gnb_patch/rk_ue_la_policy.c:103-106 | A read ends after a newline or at 511 characters. |
| TextCodec.ChunksOfLines | gnb_patch/rk_ue_la_policy.c:103-106 | Reading lines that fit the buffer gives the lines. |
| PostureRegistry.FormatLine | spark_ran_side/control_xapp.py:826-832 | The line of a UE. |
| PostureRegistry.FormatLines | spark_ran_side/control_xapp.py:824-833 | The lines of all UEs in order. |
| PostureRegistry.Backend.constructor | spark_ran_side/control_xapp.py:79 | An empty registry. |
| PostureRegistry.AcceptedMeans | spark_ran_side/control_xapp.py:133-181 | A request is accepted exactly if it sets some field, and each to an allowed value. |
| PostureRegistry.Backend.WriteState | spark_ran_side/control_xapp.py:820-840 | The file is the state file of the registry. |
| PostureRegistry.Backend.SetPosture | spark_ran_side/control_xapp.py:1208-1220 | A set command merges the validated fields and writes the file; a refused one changes nothing. |
| PostureRegistry.Backend.ClearPosture | spark_ran_side/control_xapp.py:1281-1284 | A clear command removes the UE and writes the file. |
| PostureRegistry.AfterIsLastSet | spark_ran_side/control_xapp.py:1215-1284 | After any commands an entry holds exactly the values last set since the last clear. |
| PostureRegistry.AfterValidated | spark_ran_side/control_xapp.py:133-181 | Entries stay validated. |
| PostureParsers.ParseLineTokens | gnb_patch/rk_ue_la_policy.c:122-141 | The token loop computes the record of a line. |
| PostureParsers.NoRecord | gnb_patch/rk_ue_dl_policy.c:137-141 | Empty lines and comments say nothing. |
| PostureParsers.LastLineCounts | gnb_patch/rk_ue_dl_policy.c:149-155 | Of several lines for one RNTI the last one counts; the tables have 256 and 128 records. |
| PostureParsers.PolicyTable.constructor | gnb_patch/rk_ue_la_policy.c:12 | An empty table. |
| PostureParsers.PolicyTable.ClearAll | gnb_patch/rk_ue_la_policy.c:24-27 | All records are dropped. |
| PostureParsers.PolicyTable.Reload | gnb_patch/rk_ue_la_policy.c:101-163 | A reload leaves exactly the table of the file, whatever was there before. |
| PostureParsers.PolicyTable.ReadLine | gnb_patch/rk_ue_dl_policy.c:133-147 | What one line contributes. |
| PostureParsers.PolicyTable.StoreRecord | gnb_patch/rk_ue_dl_policy.c:149-156 | The record is stored if there is room. |
| PostureParsers.PolicyTable.Get | gnb_patch/rk_ue_la_policy.c:186-232 | The getters in place. |
| PostureRoundTrip.KeyMatches | gnb_patch/rk_ue_la_policy.c:71-78 | A printed key is matched by itself only, so no field is read as another. |
| PostureRoundTrip.LineFits | gnb_patch/rk_ue_la_policy.c:103-106 | With integers below 10^13 no printed line exceeds the buffer of the readers. |
| PostureRoundTrip.ShortCommandsFit | gnb_patch/rk_ue_la_policy.c:103-106 | So the file fits after any commands with RNTIs in 1..65535 and such integers. |
| PostureRoundTrip.LineRead | spark_ran_side/control_xapp.py:826-832 | Both readers recover a printed line: uplink exactly for RNTIs in 1..65535, downlink with the RNTI modulo 2^16. |
| PostureRoundTrip.TableOfStateFile | gnb_patch/rk_ue_la_policy.c:101-163 | A reload gives exactly the UEs among the first RNTIs up to the capacity the record of their entry. |
| PostureRoundTrip.GetterAfterCommands | spark_ran_side/control_xapp.py:820-1284 | Main result: after any commands whose file fits the readers, every integer getter of either reader answers what atoi reads of the last validated value for the UE if that is in its range, and the default otherwise. |
| PostureRoundTrip.ValueReadBack | spark_ran_side/control_xapp.py:820-1284 | The value set comes back exactly if it is at most 2^31 - 1, or is the default that is answered instead. |
| PostureRoundTrip.LeastIs | gnb_patch/rk_ue_la_policy.c:173-232 | Which getters take 0 over. |
| PostureRoundTrip.FewUesKept | gnb_patch/rk_ue_dl_policy.c:19 | With no more UEs than the capacity everyone has a record. |
| PostureRoundTrip.UlMaxMcsAfterCommands | gnb_patch/rk_ue_la_policy.c:173-184 | The same for the uplink MCS, clipped to the table. |
| PostureRoundTrip.LargeValueLost | gnb_patch/rk_ue_la_policy.c:71-78 | Whatever the file says, no getter answers an integer above 2^31 - 1 other than the default. |
| PostureRoundTrip.LargeValueMisread | spark_ran_side/control_xapp.py:167-179 | An accepted command with such a value is misread: the getter answers its low 32 bits if they are positive, otherwise the default. |
| PostureRoundTrip.LargeValueExamples | gnb_patch/rk_ue_la_policy.c:71-78 | 2^31 is lost, 2^32 + 5 comes back as 5. |

## Left out

Not modelled:

- SRS/TPMI estimation, precoder tables, DCI, PDCCH, PUCCH and FAPI fields, random access: tables and field filling, mostly in functions outside the repository.
- Beam allocation, CCE search, PUCCH occasions, DMRS parameters, timers: their outcomes are inputs.
- Transport block sizes, `nr_find_nb_rb` and the power formula: functions or values given as inputs, kept within the bounds the source relies on.
- Downlink HARQ feedback (`handle_dl_harq`) and the `reset_*_harq_list` functions are not part of this model, so downlink HARQ has no results about runs, only about scheduling steps from states that keep the invariant.
- Downlink UE selection (`pf_dl` outside the search and the clamp): the same shape as the uplink one.
- `nr_write_ce_dlsch_pdu`: only the number of bytes it writes matters; it must leave room, as the source asserts.
- Throughput averages and floating point: coefficients are real numbers.
- Freshness of the state file (modification time, size, 100 ms): a reload is one that reads the file. The replacement of the file is atomic.
- Float multipliers of a posture: kept as the text between printing and reading, since "%g" and `atof` lose digits.
- Conversion of request values by `int()` and `float()`, and the resolution of an RNTI: a request holds the converted values, and the UE is known.
- Threads and locks of the backend: commands come one after the other.
- `jetson_user_side/server.py`, `gnb_rnti_watcher.py` and the rest of the backend.
- `nr_list`, `seq_arr`, `SL_to_bitmap`, `is_ul_slot`: not part of the repository; modelled as FIFO sequences without duplicates, sequences, runs of bits, and slot tables of a period.
- LCID values: those of 3GPP TS 38.321, section 6.2.1; their definitions are not part of the repository.

Weaker than one might expect:

- UlPreprocessor.Preprocessor.Preprocess: the pointer must start within half a clock turn of the current slot, less one period (`SlotCalendar.InSightInitially`); every call keeps it there, and for a target beyond it the source's assertion fails (`UlPreprocessor.TooFarAheadAborts`).
- UlPreprocessor.Preprocessor.RunSlots: no stretch of slots without DCIs may be so long that the pointer falls out of sight, about 511 frames; the source computes the number of DCIs from the bandwidth, so it is 0 in all slots or in none.
- MacPdu.ProcessPdu: covers the buffer estimate and the walk; other control elements are only skipped, with the effects of power headroom reports, and the abort on a C-RNTI element of a UE whose random access is idle, left out. The buffer must be 16 bytes longer than the PDU, since the source peeks behind short PDUs.
- UlHarqRuns.RunsConserve: for HARQ enabled, and SDUs of the expected size; `UlHarqRuns.SduConserves` says what happens otherwise.
- UlHarq.PostInv: with HARQ disabled the invariant says that feedback and retransmission lists are empty.
- RbAllocator.UlGrantSound: for a minimum grant of at least one block; the getters answer nothing smaller unless the default of the caller is.
- PfUlResults.NewGrantsDisjoint: says nothing of the blocks of retransmissions, which the code does not keep apart (`RbAllocator.ReuseTakesUsedBlock`).
- PfUlInPlace.Scheduler.PfUl: the HARQ control block of a UE is one array element replaced as a whole; `UlHarqInPlace` has the field by field updates. Which blocks a retransmission marks is an input.
- PfUlOrder.Qsort: one sorted permutation out of those qsort may leave; the results hold for all of them.
- SliceLimiter.ThrottleShown: for pauses of at most one clock turn; `SliceLimiter.ThrottleExact` covers longer ones. `pf_ul` does not enforce the throttle (`PfUlResults.ThrottlingOnlyReorders`, `PfUlLimits.ThrottledIsGranted`).
- DlAssembly.AssembledRoundTrip: for LCIDs the uplink decoder gives a length field, which leaves out SRB3; `DlAssembly.WalkAssembled` has the exact condition.
- PostureRoundTrip.GetterAfterCommands: for files whose UEs have RNTIs in 1..65535 and whose lines fit the buffer of the readers (integers of more than 13 digits can make a line longer, and the reader then splits it); beyond the capacity of a table the UEs with the smallest RNTIs are kept.
