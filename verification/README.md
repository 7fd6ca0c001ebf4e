# birdfy-bridge, verified

A Dafny model of the Birdfy camera bridge and proofs of what it promises. Two groups of
components are modelled.

**Media path.** H.264 frames leave the WebRTC jitter buffer, wait in a bounded queue, are split
into NAL units, and are copied into an ffmpeg process that starts at a keyframe and may die at any
frame. The main results say, for every sequence of frames and every pattern of deaths, exactly
which bytes each process receives, what a decoder finds when it splits that byte stream again,
where every frame went, and what is left open at the end. Beside it stand the re-NACK table, the
audio pump, the SDP offer rewrites, the trickled candidates, the timestamps and the jitter-buffer
capacity.

**Control path.** The session loop with its back-off ladder and off mode, the MQTT mode state,
the reuse of login tokens, and the grace timer of the container health check. Their results are
about whole runs: a bound on the rate of attempts, a bound on fresh logins, an exact account of
"unhealthy", off mode as the health check sees it, a mode that survives restarts.

| file | content |
|---|---|
| `Separators.dfy` | find, split, join and replace, and when they are inverse to each other |
| `AnnexB.dfy` | the NAL splitter and its exactness |
| `Schedules.dfy` | which moments of a run belong to which process; there is only one answer |
| `Forwarder.dfy` | the forwarding loop over objects, and the fold it computes |
| `Delivery.dfy` | what each process receives |
| `Stream.dfy`, `CleanStreams.dfy` | what a decoder finds in it, and exactly when it is what it should be |
| `Accounts.dfy` | the loop's books: frames, processes, pumps |
| `Witnesses.dfy` | small runs that show where the loop's promises end |
| `Queues.dfy`, `AudioPipe.dfy` | the hand-off queues; the audio pump and short writes |
| `ReNack.dfy`, `JitterCapacity.dfy`, `Timestamps.dfy` | retries, buffer capacity, frame times |
| `PyText.dfy`, `Sdp.dfy`, `Trickle.dfy` | Python text functions, offer rewrites, candidates |
| `MqttMode.dfy` | the operator's mode |
| `SessionLoop.dfy`, `SessionRuns.dfy` | the session loop, and what it does over whole runs |
| `AuthResume.dfy` | token reuse |
| `Healthcheck.dfy`, `OffHealth.dfy` | the grace timer, alone and beside the session loop |

Code that updates variables is modelled as methods, loops and classes, each proved equal to a
specification function; the lemmas are about those functions. The outside world (process deaths,
broken pipes, clocks, cloud replies, broker messages, failing files) is an argument.

Bytes are integers from 0 to 255, so the mask `& 0x1F` is a remainder by 32. Clocks and rates are
reals. A stretch of code between two `await`s is one step.

## What the proofs found

- **An audio pump can stay open.** If starting ffmpeg raises, the pump created just before it is
  never stored and never closed (`_rtp_forwarder.py:544-548`). `Accounts.ExitCleansUp` and
  `Accounts.StartFailedIff` say exactly when, `Witnesses.PumpStaysOpen` gives a run.
- **A keyframe with only one of SPS and PPS is written without the other**
  (`_rtp_forwarder.py:709`), although the cache's documentation speaks of prepending to each IDR
  frame. `Stream.KeyframeIsDecodableIff` and, for whole processes, `Stream.EveryProcessIsDecodable`
  are exact; `Witnesses.KeyframeWithoutPps` is an input.
- **Bytes in front of a frame's first start code end up inside the unit before them**, which is the
  PPS if parameter sets are put in front. `Stream.ImageSplits` is exact for a keyframe,
  `CleanStreams.ProcessStreamSplitsIff` for the whole stream of a process;
  `Witnesses.StrayByteInPps` is an input.
- **A null in a refresh answer takes a cached value with it** (`birdfy_api.py:414-415`), although
  region and endpoint are documented to survive a sparse answer. `AuthResume.RefreshesKeep` is
  exact, `AuthResume.NullTakesRegion` an input.
- **A mode file that is not text stops the bridge from starting.** `_read_persisted_mode` documents
  that garbage yields no mode, but catches `OSError` only (`mqtt_control.py:77-80`).
  `MqttMode.Build` is exact; by `MqttMode.RestartIsExact` the bridge never writes such a file.
- **A candidate can vanish with a fingerprint line** that hides it behind a break only `splitlines`
  sees. `Trickle.NeutralIff` says which lines can be left out without a trace,
  `Trickle.HiddenCandidate` is an input.
- **One offer needs two passes.** When the only mention of `a=sctpmap:5000` is in a stripped
  fingerprint line, the first pass injects nothing and the second does. `Sdp.ApplyIsIdempotentIff`
  gives the exact condition, `Sdp.TwoPassOffer` an input.
- **A configured jitter capacity of zero passes the power-of-two check**
  (`JitterCapacity.AcceptedCapacity`); it widens nothing.
- The documentation of `forward_video` says that it returns when ffmpeg dies, and that of
  `publish_state` that a full queue drops the update. The code restarts ffmpeg and drops the
  oldest entry; the model follows the code.

## Model

| member | source | states |
|---|---|---|
| `Separators.JoinSplit` | _sdp_patches.py:41-50 | joining with the separator undoes splitting, for every text and separator |
| `Separators.SplitJoin` | _sdp_patches.py:41-50 | splitting undoes joining when no part holds the separator and the separator cannot overlap itself |
| `Separators.SplitConcat` | _rtp_forwarder.py:164-179 | a written separator cuts the text in two that split independently, whatever stands on its sides |
| `AnnexB.IterNals` | _rtp_forwarder.py:155-179 | the one-pass loop yields the non-bare segments between start codes, typed by the low five bits |
| `AnnexB.SegmentsAreExact` | _rtp_forwarder.py:164-179 | segments put together are the data from its first start code on, and each has exactly one start code, in front |
| `AnnexB.YieldedIsNalUnit` | _rtp_forwarder.py:175-178 | every yielded unit is longer than a start code, holds one start code only, and is typed by its own octet |
| `AnnexB.GarbageIff` | _rtp_forwarder.py:591-595 | nothing is yielded exactly when every start code is followed by another one or by the end |
| `AnnexB.NalsConcat` | _rtp_forwarder.py:164-179 | from a start code on, the units found do not depend on what was put in front |
| `AnnexB.SplittingUndoesBuilding` | _rtp_forwarder.py:155-179 | start code plus body, concatenated, splits back into the same list, trailing zero bytes included |
| `Forwarder.ParamSetCache.Observe` | _rtp_forwarder.py:201-205 | the cache keeps the latest SPS and PPS and ignores other units |
| `Forwarder.ObserveFrame` | _rtp_forwarder.py:583-587 | observing a frame yields its NAL types and folds its units into the cache |
| `Forwarder.StartFfmpeg` | _rtp_forwarder.py:540-548 | a pump, then a process; if that raises the pump stays behind, open |
| `Forwarder.WriteFrame` | _rtp_forwarder.py:707-723 | the frame goes to the live process only, behind the cached sets if it holds a keyframe and brings neither, which are never absent then |
| `Forwarder.OfferFrame` | _rtp_forwarder.py:690-735 | a dead process or broken pipe loses the frame, reaps the process, closes its pump and re-arms the gate |
| `Forwarder.HandleFrame` | _rtp_forwarder.py:576-742 | one pass of the loop over objects is one step of the fold |
| `Forwarder.ForwardVideo` | _rtp_forwarder.py:455-770 | the whole loop with its clean-up leaves exactly the processes, chunks, pumps and counters of the fold |
| `Schedules.ScheduleStep` | _rtp_forwarder.py:663-705 | one more frame continues, ends or begins a process's life |
| `Schedules.ScheduleIsUnique` | _rtp_forwarder.py:663-735 | keyframes and deaths alone determine which frames belong to which process |
| `Delivery.CachedStep` | _rtp_forwarder.py:583-587 | the cache is the last SPS and last PPS of all frames dequeued, dropped ones included |
| `Delivery.RunDelivers` | _rtp_forwarder.py:576-742 | every process received exactly the images of a run of consecutive non-garbage frames, from the keyframe that opened it to the frame lost at its death, and no start was missed |
| `Delivery.RaisedDelivers` | _rtp_forwarder.py:714-770 | when something raises, earlier deliveries stand and a process begun at that frame received nothing |
| `Delivery.OpensIff` | _rtp_forwarder.py:663-667 | the gate opens at a frame with an IDR unit, once an SPS and a PPS have come, at any time |
| `Stream.EveryChunkIsDue` | _rtp_forwarder.py:576-742 | every process received, byte for byte, one chunk for each non-garbage frame of its stretch: the frame as it came, or behind the last SPS and PPS exactly if it holds a keyframe and brings neither |
| `Stream.ImageSplits` | _rtp_forwarder.py:709-712 | a prefixed keyframe splits into last SPS, last PPS and its own units, exactly when it begins with a start code |
| `Stream.KeyframeIsDecodableIff` | _rtp_forwarder.py:709-712 | a keyframe is written with both parameter sets exactly when it came with both or neither |
| `Stream.EveryProcessIsDecodable` | _rtp_forwarder.py:663-712 | every process begins with a keyframe, and all its keyframe chunks hold both sets exactly when each keyframe of its own stretch came with both or neither |
| `Stream.ProcessStreamSplits` | _rtp_forwarder.py:576-742 | when the frames of its own stretch are garbage or begin with a start code (the first also if it is written as it is), the byte stream of a process splits into their units in order, with the sets of the time before each keyframe that lacks them |
| `CleanStreams.ProcessStreamSplitsIff` | _rtp_forwarder.py:576-742 | and exactly then, for a camera whose frames end in a NAL unit |
| `Witnesses.KeyframeWithoutPps` | _rtp_forwarder.py:709-712 | a keyframe that brings an SPS only goes out without a PPS, though one is cached |
| `Witnesses.StrayByteInPps` | _rtp_forwarder.py:709-712 | a keyframe behind a stray byte: a decoder finds the byte in the PPS |
| `Accounts.RunBalances` | _rtp_forwarder.py:659-742 | frames dequeued are garbage, gate drops, restarts, forwarded or the one raised at; processes are restarts plus the live one; pumps stand beside processes; a live process has both sets |
| `Accounts.EveryFrameIsAccountedFor` | _rtp_forwarder.py:477-742 | across queue and loop: frames handled are an in-order selection of arrivals, and every arrival was refused, is queued, or is in one column of the books |
| `Accounts.CountersAreFates` | _rtp_forwarder.py:659-742 | over a whole run each counter counts frames by their fate, which keyframes and deaths alone decide; the gate's counts those since the last restart; the bytes are those due for the frames written |
| `Accounts.ExitCleansUp` | _rtp_forwarder.py:744-770 | on exit all processes are reaped, and all pumps closed exactly when no start failed with audio on |
| `Accounts.StartFailedIff` | _rtp_forwarder.py:540-548 | frames and deaths alone decide whether something raises, and whether it is a start: a frame opens the gate, no life covers it, and no process is to be had |
| `Witnesses.PumpStaysOpen` | _rtp_forwarder.py:544-548 | a run of one frame that leaves a pump open on exit |
| `Queues.VideoTap.OnFrame` | _rtp_forwarder.py:477-494 | empty frames are ignored; a full queue refuses the newest and counts it |
| `Queues.AudioTap.OnAudio` | _rtp_forwarder.py:517-531 | empty frames are ignored; a full queue makes room by dropping its oldest |
| `Queues.StateOutbox.PublishState` | mqtt_control.py:260-279 | the last state is always kept; an enabled outbox queues it, dropping the oldest of eight |
| `Queues.RefusingKeepsOrder` | _rtp_forwarder.py:477-494 | under any interleaving, taken plus queued frames are an in-order selection of the offers, complete but for the counted drops |
| `Queues.RefusingIsExact` | _rtp_forwarder.py:477-494 | no frame taken in is ever given up, and every one is taken in that finds the queue not full |
| `Queues.MakingRoomKeepsLatest` | _rtp_forwarder.py:517-531 | under any interleaving, the queue is exactly the latest offers, within its bound |
| `Queues.DriveVideo` | _rtp_forwarder.py:477-494 | the tap object, driven by any interleaving of arrivals and gets, ends as the trace says |
| `Queues.DriveAudio` | _rtp_forwarder.py:517-531 | so does the audio tap, and it has counted every frame that was not empty |
| `Queues.DriveOutbox` | mqtt_control.py:260-279 | so does the state outbox, and while it is not empty its newest entry is the last state kept |
| `AudioPipe.WriteAll` | _rtp_forwarder.py:429-434 | exactly the bytes that fit before the pipe breaks or blocks arrive, and it is done exactly if that is all of them |
| `AudioPipe.Pump` | _rtp_forwarder.py:389-415 | the process reads silence and then the audio frames in order, as far as the writes go through |
| `AudioPipe.SilenceLasts` | _rtp_forwarder.py:398-401 | the priming bytes are mu-law silence for a twentieth of a second, 400 bytes at 8 kHz |
| `AudioPipe.SendIsRoom` | _rtp_forwarder.py:429-434 | repeated short writes send the smaller of data and room, meet no broken pipe if that is all, and end at one or block if not |
| `AudioPipe.SendAllIsExact` | _rtp_forwarder.py:389-415 | the pump lives exactly if the whole stream arrived, and else it ended at the write that failed |
| `AudioPipe.EverythingArrives` | _rtp_forwarder.py:389-434 | while each write takes at least a byte and none fails, everything arrives |
| `ReNack.ReNackLoop.Tick` | _aiortc_media_patches.py:196-232 | one pass updates the table, the request list and the count of sends as specified, whether or not anything can be sent |
| `ReNack.ReNackLoop.DropRecovered` | _aiortc_media_patches.py:206-210 | counters of packets no longer missing go, the others stay |
| `ReNack.RunLoop` | _aiortc_media_patches.py:196-232 | over any passes the object's table and request lists are those of the history, and its count is of the lists that went out |
| `ReNack.TableIsStreak` | _aiortc_media_patches.py:199-218 | the stored count is the number of latest consecutive ticks missing, capped |
| `ReNack.RequestsAreFreshStreaks` | _aiortc_media_patches.py:212-218 | each request list is ascending and holds exactly the missing packets whose streak has not passed the cap |
| `ReNack.TableCountsRequests` | _aiortc_media_patches.py:212-218 | no packet is requested more than the cap allows before it recovers |
| `ReNack.StandstillGoesQuiet` | _aiortc_media_patches.py:212-221 | once the missing set has stood still for as many ticks as the cap, requests stop |
| `JitterCapacity.AcceptedCapacity` | _aiortc_media_patches.py:99-105 | any configured capacity ends as a power of two, or zero; exactly those are accepted as they are, and 2048 stands for all others |
| `JitterCapacity.PatchedCapacity` | _aiortc_media_patches.py:115-125 | a video buffer is the wider of asked and configured, a power of two stays one, audio is left alone |
| `Timestamps.TickIsNearest` | _rtp_forwarder.py:81-86 | the tick is the nearest whole number of 1/90000 seconds, the even one of two equally near |
| `Timestamps.StampIsClose` | _rtp_forwarder.py:81-86 | frame n is stamped within n / 180000 seconds of its nominal time |
| `Timestamps.StampsIncreaseIff` | _rtp_forwarder.py:81-86 | timestamps strictly increase exactly for rates below 180000 |
| `Timestamps.DriftIsBounded` | _rtp_forwarder.py:276-281 | the drift against the real delivered rate is at most the relative rate error plus the tick's rounding |
| `Sdp.StripIsIdempotent` | _sdp_patches.py:41-50 | stripping twice is stripping once, and the second pass removes nothing |
| `Sdp.StrippedLines` | _sdp_patches.py:41-50 | the stripped offer's lines are the kept lines, also when none is kept |
| `Sdp.PatchedLinesAreExact` | _sdp_patches.py:30-98 | a patched offer has no sha-384 or sha-512 fingerprint line, and every other line of the injected text, in order and as often; the report says how many went and whether an injection was due |
| `Sdp.InjectIsIdempotent` | _sdp_patches.py:21-27 | injecting twice is injecting once, for every text |
| `Sdp.InjectIsLineWise` | _sdp_patches.py:21-27 | the sctpmap line stands right behind each port line that another line follows, and nothing else changes |
| `Sdp.InjectFlag` | _sdp_patches.py:21-27 | when the flag is true and when the text really changes |
| `Sdp.ApplyIsIdempotentIff` | _sdp_patches.py:86-98 | patching twice is patching once, exactly unless stripping removes every mention of sctpmap and leaves a port line that asks for one |
| `Sdp.TwoPassOffer` | _sdp_patches.py:86-98 | an offer for which it is not |
| `Trickle.ExtractTrickleCandidates` | _sdp_patches.py:53-83 | the loop computes the scan of the lines |
| `Trickle.CandidateLinesAreExact` | _sdp_patches.py:66-83 | the lines taken are exactly the candidate lines between the first and the second media line |
| `Trickle.TakenIff` | _sdp_patches.py:66-83 | a line is taken exactly if it begins with `a=candidate:` and one media line, and only one, came before it |
| `Trickle.CandidateLinesAscend` | _sdp_patches.py:66-83 | they are taken in order |
| `Trickle.CandidatesAreSection` | _sdp_patches.py:66-83 | each candidate carries the mid in force in its section and the last ufrag before it |
| `Trickle.CandidateText` | _sdp_patches.py:63-83 | each candidate is its line without `a=`, with section 0, its section's mid or else "0", and the last ufrag |
| `Trickle.InjectKeepsCandidates` | _sdp_patches.py:21-27 | injecting changes no candidate, for every text |
| `Trickle.PatchingKeepsCandidates` | _sdp_patches.py:86-98 | patching changes no candidate, as long as no stripped line hides a line that matters behind a break only `splitlines` sees |
| `Trickle.PatchingKeepsCrlfCandidates` | _sdp_patches.py:86-98 | so for every offer whose only line breaks are CRLFs |
| `Trickle.NeutralIff` | _sdp_patches.py:66-83 | a stretch of text can be left out of any scan without a trace exactly when none of its lines matters |
| `Trickle.HiddenCandidate` | _sdp_patches.py:41-50 | an offer that loses its only candidate with a fingerprint line |
| `PyText.SplitLinesAtCrlf` | _sdp_patches.py:66-66 | behind any CRLF, `splitlines` begins anew |
| `PyText.DecimalReadsBack` | _sdp_patches.py:70-70 | `str` of a number reads back as it, without a zero in front |
| `MqttMode.Build` | mqtt_control.py:70-152 | a control starts in the file's mode if valid, else in the environment's; it cannot be built exactly if the file is not text |
| `MqttMode.AcceptedIff` | mqtt_control.py:334-341 | a message asks for a mode exactly if it spells one of the three, in any case and between any blanks |
| `MqttMode.MqttControl.OffEvent` | mqtt_control.py:180-192 | created on first access from the current mode |
| `MqttMode.MqttControl.ApplyMode` | mqtt_control.py:334-357 | invalid payloads change nothing; a real change writes the file and raises the alarm; the off event follows |
| `MqttMode.MqttControl.SleepUntilModeChange` | mqtt_control.py:200-221 | a pause ends early exactly when a message handled during it really changes the mode |
| `MqttMode.OffEventFollowsMode` | mqtt_control.py:351-357 | after any messages the off event, once created, is set exactly while the mode is off |
| `MqttMode.RestartIsExact` | mqtt_control.py:84-135 | whatever became of the writes, a control built again starts in the mode last written, or in the environment's if the file was truncated since |
| `MqttMode.RestartKeepsMode` | mqtt_control.py:129-135 | so it starts in the old one's mode when the latest real change was written |
| `MqttMode.WrittenModeReadsBack` | mqtt_control.py:70-91 | a mode written to the file reads back as itself |
| `SessionLoop.RunSessions` | main.py:448-567 | the loop logs and ends as the specification says, for any behaviour of the outside world |
| `SessionRuns.KindOfPass` | main.py:484-556 | a pass counts as off, offline, long or short by the mode at its top, its outcome, and whether it lasted a minute |
| `SessionRuns.PauseAfterSession` | main.py:532-567 | 300 seconds after an offline camera, 2 after a long session, and after a short one 2, 10, 30, 60, 120, then 300, by the number of short ones since the last long one |
| `SessionLoop.LadderCountsShortSessions` | main.py:532-556 | offline and off-mode passes leave the ladder untouched |
| `SessionRuns.AttemptRate` | main.py:532-567 | n sessions of less than a minute take at least 222 + 300 (n - 5) seconds, less 300 per real mode change |
| `SessionLoop.SentinelStandsIff` | main.py:365-526 | after any run the sentinel exists exactly if an off pass wrote it, or it was there at the start, and no session has removed it since |
| `SessionRuns.SteadyIffPolled` | main.py:484-526 | in off mode, retries every 2 seconds exactly until a poll of the present stretch of off mode has published, and the configured cadence from then on |
| `AuthResume.AuthStore.SaveCachedAuth` | birdfy_api.py:155-183 | what the cache file holds afterwards, for every outcome of the write |
| `AuthResume.AuthStore.RefreshToken` | birdfy_api.py:332-439 | the loop over endpoints yields the merged answer of the deciding one, saved under the cached email |
| `AuthResume.AuthStore.LoginOrResume` | birdfy_api.py:442-505 | the call ends as specified, for any replies of cloud and file system |
| `AuthResume.FirstTokenDecides` | birdfy_api.py:381-412 | the first endpoint to give a token or to reject decides |
| `AuthResume.LoginsAreOwed` | birdfy_api.py:442-505 | fresh logins never exceed one if no usable cache existed, plus rejected cached tokens, plus logins that could not be saved |
| `AuthResume.LoginsAreBounded` | birdfy_api.py:442-505 | with a working cache file, fresh logins are at most one plus the rejected cached tokens |
| `AuthResume.UsableIff` | birdfy_api.py:136-153 | a cache is usable exactly if caching is on, its token is not empty, and it names this account or none |
| `AuthResume.LogsInIff` | birdfy_api.py:442-505 | a call logs in afresh exactly when the login works and there is no usable cache, or its token is rejected and the refresh yields no token or one that is rejected too |
| `AuthResume.HandsOutAccepted` | birdfy_api.py:461-505 | a call hands out the auth that the last device list call accepted, and none otherwise: the cache, the deciding endpoint's new token, or the login's answer |
| `AuthResume.FileAfterCall` | birdfy_api.py:442-505 | what the cache file holds after a call, for every outcome of every reply and write |
| `AuthResume.TransientFailureKeepsToken` | birdfy_api.py:461-497 | a transient failure at either validation logs nobody in; before a refresh the file is left alone, after one it stays usable but for a broken save or an answer for another account |
| `AuthResume.RefreshKeepsAccount` | birdfy_api.py:413-423 | a saved refresh has a token and a refresh token, and is usable for the account exactly when the cache named it or the answer names no other |
| `AuthResume.RefreshesKeep` | birdfy_api.py:413-423 | over any number of refreshes a cached email and the last refresh token stay; any other value stays exactly until an answer has its key, even with a null |
| `AuthResume.NullTakesRegion` | birdfy_api.py:414-415 | an answer whose null takes the cached region with it |
| `Healthcheck.Timer.RunCheck` | docker/healthcheck.py:111-153 | exit code and state file of one invocation, also when the file cannot be written |
| `Healthcheck.RunChecks` | docker/healthcheck.py:111-153 | over any invocations exactly those fail that find the API dead, or the path down and overdue |
| `Healthcheck.TimerIsFirstDown` | docker/healthcheck.py:117-141 | the timer is the first sighting of the path down that was noted since it was last cleared, whatever became of writes and removals |
| `Healthcheck.UnhealthyIff` | docker/healthcheck.py:111-153 | any check fails exactly when it finds the API dead, or the path down and that sighting at least the grace period old |
| `Healthcheck.UnhealthyStays` | docker/healthcheck.py:137-153 | with a clock that does not run backwards, once unhealthy, every later check that finds the path down fails, until one finds it ready or off |
| `OffHealth.MaskedIff` | docker/healthcheck.py:111-120 | a check beside the session loop is held healthy by the sentinel exactly if that was left standing |
| `OffHealth.DeadApi` | docker/healthcheck.py:117-127 | behind the sentinel even a dead API is healthy; without it, it fails at once, whatever the timer says |
| `OffHealth.OffIsHealthy` | main.py:480-526 | no check fails in an off pass whose sentinel could be created, and the last one clears the timer |
| `OffHealth.GraceBehindOff` | docker/healthcheck.py:111-153 | any failure later on with the API alive rests on a first sighting behind that pass, at least the grace period old |
| `OffHealth.GraceIsExact` | docker/healthcheck.py:135-153 | a path down from the first check behind a reset on fails the first check that comes the grace period later, and none before |

## Left out

- `Trickle.PatchingKeepsCandidates`: one direction; an offer with such a hidden line may still happen to keep its candidates. `Trickle.NeutralIff` is exact for a line.
- `Stream.ProcessStreamSplits`: one direction, for any bytes; that its condition is needed takes frames that end in a NAL unit, which is `CleanStreams.ProcessStreamSplitsIff`.
- `MqttMode.RestartKeepsMode`: one direction; after a failed write the file may still happen to name the current mode, which is `MqttMode.RestartIsExact`.
- `AuthResume.LoginsAreBounded`: JSON values other than strings and null are not modelled, nor is the time stamp in the cache.
- `Forwarder.ForwardVideo`: a write is accepted whole, meets a broken pipe, or raises; bytes of a failed write that reached the pipe, and exceptions other than at the start or the write, are not modelled.
- `AudioPipe.Pump`: the frames are given as a list; the interleaving with the queue is in `Queues`, and cancellation is a pipe that breaks. A write that takes no byte is allowed, and retried as the loop does.
- `SessionLoop.RunSessions`: a finite number of passes; waiting before the first poll of off mode is part of the pass's working time.
- `OffHealth.MaskedIff`: a check falls into the pass whose sentinel operation came before it; one that runs during that very operation counts with either side.
- `ReNack.ReNackLoop.Tick`: the missing set is given in ascending order, as sorting leaves it; the registry of loops per receiver is not modelled.
- HTTP, WebSocket, WebRTC, ICE and signaling: their results are inputs. The wrapping of jitter buffers and the stubbed decoder are library patching.
- The ffmpeg command line, MediaMTX and file descriptors: a process is alive or dead, a write accepted or failed.
- Counters that feed only log lines, the dump of garbage frames, log levels and rate-limited warnings.
- Home Assistant discovery, state payloads, request signing, log redaction, environment parsing and device picking: straight-line code.
- Reconnecting to the broker, and whether its retained state catches up.
- Floating-point rounding of clocks and rates.
