# engmsc in Dafny

This project models the sequential core of engmsc, an engine-sound simulator, and proves properties of that model. Its centre is the audio mixer `EMAudioStream`, which works as follows:

- A pool of three 1024-sample slots circulates between an input queue and an output queue.
- `fillNextBuffers` mixes the started events of every insert into a work buffer and runs each insert's filter chain.
- It also starts events whose time falls inside the block, retires expired producers, and lets late events play.
- When it falls too far behind the wall clock, it evicts non-static events and resynchronises its clock.
- It quantises each block to 16-bit samples and moves the filled slot to the output queue.
- `getNextBuffer` and `restart` complete the queue discipline.

Around the mixer sit the rest of the core:

- the sample producers: the kick drum, wind noise, and the engine-log hold-resampler;
- the event value types and the legacy event API;
- the application's firing scheduler and its slider mappings;
- the mesh builder and the mesh emitters;
- the bitmap-font renderer, with its UTF-8 decoder (section 3 of RFC 3629) and its width arithmetic;
- the keyboard and mouse bit-flag state machines, and the shader uniform dirty flags;
- the tick timer, the log-line formatter and the exhaust-offset canvas;
- two asset tools: the BMFont converter and the tools' README and config lookups.

Each source file becomes one module, except `AudioStream.cpp`, which is split into `AudioInsert` (inserts and filter chains), `AudioMix` (mixing, retiring and quantising one block) and `AudioStream` (the slot queues, the fill loop and the public calls). Modules are written as immutable datatypes and pure step functions over `seq`, `real` and `int`. The modelling choices are:

- Calls into code that is not modelled become parameters. These are the wall clock, the sample generators, the filters, and the program id OpenGL hands out.
- Each public call of the stream is one atomic step, so the mutex disappears.
- Several quirks of the source are modelled as written:
  - the start offset of a late-starting event is truncated to whole seconds before scaling, so it is 0 for differences under one second;
  - `index` offsets by the index count rather than the vertex count;
  - an insert's gain, and each event's gain and pitch, are stored but never applied when mixing;
  - `removeInsert` leaves the stream's event count unchanged;
  - `genString` stalls on a byte that is not a UTF-8 lead, which the model returns as an error.
- Two places where the source is evidently wrong are listed under "Findings". Each is modelled both as written and corrected.
- The BMFont tokenizer deletes double quotes outright (`tools/font_converter.py:51`) rather than turning them into spaces, and the glyph loop reads a field's value before it looks up the latest glyph.
- The `EMAudioInsert&` that `newInsert`, `getInsert` and `getMainInsert` return is modelled as the index of the insert; a call made through it is `EditInsert`, which changes that insert of the stream in place.

## Model

| member | source | states |
|---|---|---|
| AudioEvent.NewEvent | src/AudioEvent.cpp:3-10 | the new event holds the given producer, gain and pitch (1.0 by default) and starts at sample position 0; the start flag and start time are whatever the caller says the uninitialised members hold |
| AudioEvent.SetGain | src/AudioEvent.cpp:27-30 | the gain becomes the new value; pitch, producer, position and start state are unchanged |
| AudioEvent.SetPitch | src/AudioEvent.cpp:32-35 | the pitch becomes the new value; gain, producer, position and start state are unchanged |
| AudioEvent.SettersCommute | src/AudioEvent.cpp:27-35 | setting the gain and then the pitch gives the same event as the other order |
| SoundEvents.NewSoundEvent | src/SoundEvent.cpp:3-6 | the record holds the given producer, volume and pitch, and its play position starts at 0 |
| SoundEvents.NewSoundEventDefaults | include/engmsc/SoundEvent.hpp:11-18 | omitted volume and pitch default to 1.0 |
| KickProducer.NewKick | src/KickProducer.cpp:5-7 | the shape factors are mapped to 80 + 600·f and 20 + 180·f2 (so into [80, 680] and [20, 200] for factors in [0, 1]); the hit starts at sample 0, not expired |
| KickProducer.DurationIsWholeSamples | src/KickProducer.cpp:43-46 | the 0.25 s duration is exactly 11025 samples at 44100 Hz |
| KickProducer.Clip | src/KickProducer.cpp:11-15 | a request expires the hit exactly when it would run past sample 11025, and is then cut to the samples left; otherwise it is served whole |
| KickProducer.Advance | src/KickProducer.cpp:9-24 | the position moves by the served count and never passes the end; expiry is set by the request that crosses the end and is never cleared; the shape factors stay |
| KickProducer.ProduceSamples | src/KickProducer.cpp:9-24 | the first `count` buffer entries become consecutive samples of the hit from the old position, the rest of the buffer is untouched, and the count returned is the clipped one |
| KickProducer.AddOntoSamples | src/KickProducer.cpp:26-41 | the same clipping, with each served sample scaled by the gain and added onto the buffer; entries past the count are untouched |
| KickProducer.ExactEndThenExpire | src/KickProducer.cpp:11-15 | a request ending exactly on the last sample is served in full without expiring; the next non-empty request is served nothing and expires the hit |
| KickProducer.ExpiryMonotone | src/KickProducer.cpp:14 | once expired, a kick stays expired |
| KickProducer.ServeBounded | src/KickProducer.cpp:9-41 | over any sequence of requests a hit delivers at most 11025 samples in total, and exactly as many as its position moved |
| KickProducer.KickOps | src/KickProducer.cpp:43-51 | a kick's `getDuration` is 0.25 s and its `hasExpired` is the stored expiry flag |
| WindProducer.NewWind | include/engmsc/WindProducer.hpp:18-20 | a new producer is not expired and has wind velocity 0 |
| WindProducer.Amplitude | src/WindProducer.cpp:12 | the loudness factor is velocity/150 up to 135 and 0.9 from there on, never above 0.9 and never negative for a non-negative velocity |
| WindProducer.ProduceSamples | src/WindProducer.cpp:4-16 | the whole request is served: the first n entries become noise scaled by the amplitude, the rest are untouched |
| WindProducer.AddOntoSamples | src/WindProducer.cpp:18-30 | the same scaled noise is added onto the first n entries, the gain argument has no effect, and the count is the whole request |
| WindProducer.AddOntoSilenceIsProduce | src/WindProducer.cpp:4-30 | adding onto a silent buffer gives what producing gives |
| WindProducer.AddedSampleBounded | src/WindProducer.cpp:26 | each added sample has magnitude at most 0.9 times the noise value |
| WindProducer.Expire | src/WindProducer.cpp:47-50 | after `expire` the producer reports expired; the velocity is kept |
| WindProducer.SetWindVelocity | src/WindProducer.cpp:42-45 | only the velocity changes; expiry is kept |
| WindProducer.ExpireIdempotent | src/WindProducer.cpp:47-50 | expiring twice is expiring once |
| WindProducer.ExpiryOnlyByExpire | src/WindProducer.cpp:37-50 | a velocity change neither sets nor clears expiry |
| WindProducer.WindOps | src/WindProducer.cpp:32-40 | wind's `getDuration` is 0 and its `hasExpired` is the stored expiry flag |
| EngineAudio.ConsumeDueFacts | src/engmsc/EngineAudio.cpp:85-90 | the inner loop pops a prefix of the log, moving the next reading's time one tick per reading, stops at the first reading due at or after the playback time and holds the last reading popped (the old value when none was); it reads past the end of the log exactly when the log runs out before such a reading |
| EngineAudio.SampleFromLogFacts | src/engmsc/EngineAudio.cpp:78-93 | one call moves the playback time on by one sample and leaves the next reading due at or after it, holding the last reading consumed or the old value; it reads past the end exactly when the log is too short for that |
| EngineAudio.ReadsAdvance | src/engmsc/EngineAudio.cpp:38-49 | n calls in a row move the playback time on by n samples, consume a prefix of the log, and move the next reading's time by one tick per reading consumed |
| EngineAudio.ReadsRunsOut | src/engmsc/EngineAudio.cpp:38-49 | n calls in a row read past the end of the log exactly when the log's readings end before the playback time n samples on |
| EngineAudio.ReadsSnoc | src/engmsc/EngineAudio.cpp:40-46 | one more call after a run of calls holds one more value, the one that call holds, or fails when that call fails |
| EngineAudio.PlaceSamples | src/engmsc/EngineAudio.cpp:38-49 | the readings held, one per sample, are exactly those of n calls of `i_sampleFromLog`, as are the statics and the log left; entry i gets the i-th noise draw scaled by (reading held for it − 100000)/2e6 added and entries past n are untouched; the log underflows exactly when it holds too few readings for the n samples; the count returned is 0 |
| EngineAudio.GetInstance | src/engmsc/EngineAudio.cpp:28-36 | the first call creates the producer; every later call returns that same producer and changes nothing |
| EngineAudio.GetInstanceStable | src/engmsc/EngineAudio.cpp:28-36 | calling `getInstance` twice is calling it once |
| EngineAudio.Destroy | src/engmsc/EngineAudio.cpp:61-64 | destroying the instance installs a brand-new one, so `getInstance` afterwards returns a different producer |
| EngineAudio.EnginePlace | src/engmsc/EngineAudio.cpp:38-49 | rendered onto silence, the engine producer's samples are the noise draws scaled by the readings of n calls of `i_sampleFromLog`, and the feed moves on as those calls do |
| EngineAudio.EngineOps | src/engmsc/EngineAudio.cpp:51-59 | the engine producer's `getDuration` is 0 and `hasExpired` is always false |
| EngineAudio.EngineNeverRemoved | src/AudioStream.cpp:243-276 | engine events are neither retired nor evicted |
| AudioInsert.SetInsertGain | src/AudioStream.cpp:41-44 | an insert's gain changes and its id, filter chain and events stay |
| AudioInsert.AddFilter | src/AudioStream.cpp:46-49 | the chain grows by one, the old chain is its prefix and the new filter is last |
| AudioInsert.RemoveFilter | src/AudioStream.cpp:51-62 | the result is true exactly when the filter is in the chain, and the chain is never shortened |
| AudioInsert.RemoveAfterAddKeepsChain | src/AudioStream.cpp:46-67 | removing a filter just added reports success yet `numFilters` still counts it |
| AudioInsert.ApplyFiltersSnoc | src/AudioStream.cpp:224-234 | with the in/out buffer swap, appending a filter to the chain applies it to the previous chain's output |
| AudioStream.RegionsDisjoint | src/AudioStream.cpp:70-78 | the slot windows of the shared pool allocation do not overlap and all fit inside it |
| AudioStream.WriteRegion | src/AudioStream.cpp:281-286 | writing one slot's samples gives that slot exactly those samples and leaves every other slot's samples alone |
| AudioStream.SlotFacts | src/AudioStream.cpp:75-80 | under the queue invariant every queued id names a pool slot and no id sits on both queues |
| AudioStream.Init | src/AudioStream.cpp:69-83 | a new stream has every slot on the input queue in id order, an empty output queue, the clock one compensation delay before zero, no events and only the main insert, and satisfies the stream invariant |
| AudioStream.TargetInsert | src/AudioStream.cpp:96 | an out-of-range insert index falls back to the main insert; an in-range one is kept |
| AudioStream.Submit | src/AudioStream.cpp:94-128 | submitting an event increments the counter, puts the stamped event at the front of the target insert's list, leaves other inserts, queues and clock alone, and keeps the counter in step with the events held |
| AudioStream.Play | src/AudioStream.cpp:94-104 | `play` stamps the event with the wall clock and puts it at the front of the target insert |
| AudioStream.PlayIn | src/AudioStream.cpp:106-116 | `playIn` stamps the event with the wall clock plus the delay |
| AudioStream.PlayAt | src/AudioStream.cpp:118-128 | `playAt` stamps the event with the given absolute time |
| AudioStream.NewInsert | src/AudioStream.cpp:130-133 | the new insert is appended with its index as id, empty, and the existing inserts are unchanged |
| AudioStream.GetInsert | src/AudioStream.cpp:135-138 | the insert designated by `getInsert(id)` is the stream's insert at index id |
| AudioStream.GetMainInsert | src/AudioStream.cpp:140-143 | the main insert is the insert at index 0, which exists under the stream invariant |
| AudioStream.ApplyEdit | src/AudioStream.cpp:41-62 | `setGain`, `addFilter` and `removeFilter` through an insert reference never change the insert's id or events; `setGain` sets the gain, `addFilter` appends the filter, and `removeFilter` leaves the insert as it was |
| AudioStream.EditInsert | src/AudioStream.cpp:130-143 | a call made through the reference to insert id changes exactly that insert of the stream, leaves every other insert and the rest of the stream alone, and keeps the invariant and the event count |
| AudioStream.GetAfterEdit | src/AudioStream.cpp:135-138 | reading an insert back after a call through a reference shows the call on the edited insert and nothing new on any other |
| AudioStream.NewInsertTakesFilter | src/AudioStream.cpp:46-49 | a filter added through the reference `newInsert` returns is that new insert's whole chain |
| AudioStream.RemoveInsert | src/AudioStream.cpp:145-150 | the insert is erased with its events while the event counter is not adjusted |
| AudioStream.RemoveInsertBreaksCount | src/AudioStream.cpp:145-150 | removing an insert that still holds events leaves `m_nbEvents` above the number of events held |
| AudioMix.SampleStart | src/AudioStream.cpp:211 | because the time difference is cast to int before scaling, an event starting inside the block always starts at sample 0 |
| AudioMix.MixEvent | src/AudioStream.cpp:205-221 | a playing event is marked started, its producer advanced by one block, and the buffer gains its contribution sample by sample; other events are untouched |
| AudioMix.MixEvents | src/AudioStream.cpp:205-222 | the event loop steps every event independently and the buffer gains the summed contributions of all playing events |
| AudioMix.MixInsert | src/AudioStream.cpp:200-239 | an insert's output is its filter chain applied to the dry sum of its events, and its id, gain and filters are kept |
| AudioMix.MixInserts | src/AudioStream.cpp:200-240 | the work buffer gains the sum of every insert's filtered signal and every insert is mixed in place |
| AudioMix.Retire | src/AudioStream.cpp:242-257 | expired events are dropped and counted, every survivor is unexpired and either started or not yet due, and every unexpired event survives with its late-start flag set |
| AudioMix.Evict | src/AudioStream.cpp:259-275 | on overrun exactly the events whose producer has a positive duration are dropped and counted, and every survivor is an input event |
| AudioMix.RetireIsLiveFilter | src/AudioStream.cpp:243-256 | the survivors of the expiry pass are exactly the unexpired events in their original order (`remove_if` is stable), with the late ones marked started |
| AudioMix.RetireAppend | src/AudioStream.cpp:243-256 | retiring the events of a concatenation keeps the survivors of the first part ahead of those of the second |
| AudioMix.EvictAppend | src/AudioStream.cpp:264-274 | evicting the events of a concatenation keeps the survivors of each part in order, and the counts add up |
| Common.FilterAppend | src/AudioStream.cpp:245-256 | the `remove_if` model is stable: the survivors of a concatenation are those of its first part followed by those of its second |
| AudioMix.RetireAll | src/AudioStream.cpp:243-257 | the expiry pass runs on every insert and the removal count equals the drop in events held |
| AudioMix.EvictAll | src/AudioStream.cpp:264-274 | the overrun pass runs on every insert and the removal count equals the drop in events held |
| AudioMix.QuantizeSample | src/AudioStream.cpp:283-285 | a sample is clamped to [-1, 1] and scaled to 16-bit range, with sign preserved, 0 kept at 0 and the rails reached at 1 and -1 |
| AudioMix.QuantizeMonotone | src/AudioStream.cpp:283-285 | conversion to 16-bit never reverses the order of two samples |
| AudioMix.Quantize | src/AudioStream.cpp:281-286 | the whole block is converted sample by sample and stays within 16-bit range |
| AudioMix.QuantizeSilence | src/AudioStream.cpp:281-286 | a silent block converts to a block of zeros |
| AudioStream.CommitSlot | src/AudioStream.cpp:285-290 | the front input slot receives the block and moves to the back of the output queue, other slots keep their samples, and the invariant holds |
| AudioStream.MixKeepsCount | src/AudioStream.cpp:200-257 | mixing keeps every event and the expiry pass removes exactly the number it counts |
| AudioStream.NextTime | src/AudioStream.cpp:262-291 | the clock moves one block on, after being resynchronised to the wall clock minus the compensation delay when the stream fell behind |
| AudioStream.AdvanceEvents | src/AudioStream.cpp:195-278 | one iteration's event work keeps the invariant and the event counter's agreement and moves the clock as `NextTime` says |
| AudioStream.Advance | src/AudioStream.cpp:259-277 | given a retired list as long as the inserts, an overrun evicts every event with a duration from every insert and resets the clock to the wall clock minus the compensation delay; otherwise the list and the clock are kept; either way the clock then moves one block on; the queues and the pool are untouched and the counter still matches the events held |
| AudioStream.FillOne | src/AudioStream.cpp:190-291 | one iteration moves the front input slot to the back of the output queue and advances the clock by one block (after a resync on overrun), keeping the invariant and the event count |
| AudioStream.FillOneContents | src/AudioStream.cpp:190-291 | one iteration writes the converted mix of the current block into the front input slot, leaves every other slot's samples alone, and leaves the retired insert list, evicted as a whole on an overrun |
| AudioStream.FillNextBuffers | src/AudioStream.cpp:188-292 | filling drains the input queue in FIFO order onto the output queue, keeping the slot invariant and the event count |
| AudioStream.FillClockOnTime | src/AudioStream.cpp:262-291 | while no iteration falls behind, every iteration advances the clock by exactly one block |
| AudioStream.FillNextBuffersTimeline | src/AudioStream.cpp:188-292 | a fill that never falls behind moves the clock on by one block per slot it filled |
| AudioStream.PopOutput | src/AudioStream.cpp:159-163 | the front output slot's samples are returned, all within 16-bit range, and the slot is recycled to the back of the input queue |
| AudioStream.GetNextBuffer | src/AudioStream.cpp:152-164 | with output ready the front slot's samples are handed out and the slot recycled; otherwise the stream fills first and hands out the slot that was at the front of the input queue; the start time is kept |
| AudioStream.GetNextBufferFills | src/AudioStream.cpp:152-164 | when nothing was ready, the samples handed out are the converted mix of the block at the stream's block time, the first block the fill wrote |
| AudioStream.FillFromKeepsOutput | src/AudioStream.cpp:188-292 | the fill loop never writes a slot already on the output queue |
| AudioStream.Restart | src/AudioStream.cpp:176-186 | restarting resets the clock and moves every output slot back to the input queue in order, keeping the pool, inserts and counter |
| AudioStream.GetTimeSinceStart | src/AudioStream.cpp:166-169 | `getTime` reads the seconds elapsed since construction or the last `restart`, and moves exactly as the wall clock moves |
| AudioStream.GetTimeUnmovedByEdits | src/AudioStream.cpp:94-143 | submitting events, adding inserts and calls through insert references leave `getTime` as it was |
| AudioStream.GetTimeUnmovedByFill | src/AudioStream.cpp:188-292 | filling leaves `getTime` as it was |
| AudioStream.GetTimeUnmovedByGetNextBuffer | src/AudioStream.cpp:152-164 | handing out a buffer leaves `getTime` as it was |
| FiringScheduler.InitialScheduler | app/src/MainScreen.cpp:56-58 | the first slot is at the stream time of construction, both intervals are one second, one cylinder is configured, and the state is ready for a frame when the unset cylinder index is not below -1 |
| FiringScheduler.FiringInterval | app/src/MainScreen.cpp:395-397 | the interval is positive, never above 120 s, and is exactly two revolutions at the speed floored at 1 RPM |
| FiringScheduler.Rescale | app/src/MainScreen.cpp:402-404 | the time remaining until the next slot is scaled by the ratio of new to old interval, and an unchanged interval leaves it alone |
| FiringScheduler.NextCylinder | app/src/MainScreen.cpp:408 | `++cylIndex % nbCyl` with C's truncating remainder always gives a valid cylinder index and wraps the last one to 0 |
| FiringScheduler.FiringKick | app/src/MainScreen.cpp:412 | each firing gets a fresh, valid kick whose noise decay is the speed over 4000 RPM clamped to [0, 1] |
| FiringScheduler.CylAfterMod | app/src/MainScreen.cpp:405-408 | stepping through k slots from cylinder c lands on cylinder (c + k) mod n |
| FiringScheduler.CylinderCycle | app/src/MainScreen.cpp:405-408 | every n slots the same cylinder fires again |
| FiringScheduler.SlotsBounded | app/src/MainScreen.cpp:405-407 | only finitely many slots lie before `now`, so the catch-up loop ends |
| FiringScheduler.FiringAt | app/src/MainScreen.cpp:407-414 | the kick of slot j belongs to the cylinder j + 1 steps on and starts 30 ms plus half a slot times that cylinder's offset after the slot |
| FiringScheduler.UpdateEngineSounds | app/src/MainScreen.cpp:388-415 | the interval is recomputed and the pending slot stretched; the loop stops at the first slot not before `now`, after passing exactly the slots before it; the cylinder index advances once per slot; one kick per slot is scheduled unless the raw speed is below 1 RPM, when none is |
| FiringScheduler.CylinderCount | app/src/MainScreen.cpp:225 | the cylinder slider's range [0, 1] yields 1 to 16 cylinders, with both ends reached |
| FiringScheduler.RevLimit | app/src/MainScreen.cpp:240 | the rev-limit slider maps [0, 1] onto exactly [1000, 12000] RPM, linearly |
| FiringScheduler.OffsetFromSlider | app/src/MainScreen.cpp:321 | the offset slider's range [0, 1] maps onto exactly the offsets [-1, 1] |
| FiringScheduler.SliderFromOffset | app/src/MainScreen.cpp:336 | an offset in [-1, 1] moves the slider to exactly [0, 1] |
| FiringScheduler.SliderOffsetInverse | app/src/MainScreen.cpp:321-336 | writing an offset from the slider and moving the slider back to it are inverse to each other |
| FiringScheduler.SetOffset | app/src/MainScreen.cpp:318-322 | only the selected cylinder's offset changes, and selecting it again puts the slider back where it was |
| FiringScheduler.PresetValues | app/src/MainScreen.cpp:343-375 | a preset lists at most eight values, and the default or an unknown preset lists none |
| FiringScheduler.Preset | app/src/MainScreen.cpp:341-378 | the table a preset writes holds the listed values first and zero for every other cylinder |
| FiringScheduler.PresetZeroAndLeadingZero | app/src/MainScreen.cpp:343-378 | the default preset clears every offset and every preset gives the first cylinder offset zero |
| LegacyApi.DefaultSoundEvent | app/src/api/engmscapi.h:29-37 | the default event has no source, unit pitch and volume and is not reversed |
| LegacyApi.BufferedSoundEvent | app/src/api/engmscapi.h:38-44 | the buffer constructor gives a well-formed buffered event holding that buffer and the given volume and pitch |
| LegacyApi.SynthSoundEvent | app/src/api/engmscapi.h:45-51 | the synthesizer constructor gives a well-formed synthesized event holding that synthesizer and the given volume and pitch |
| LegacyApi.PlayedThrough | app/src/api/engmscapi.h:91-102 | a buffered event is still playing exactly inside its buffer widened by 256 samples each side; a synthesized one is done exactly when it is more than 256 samples early or its terminator says so; a sourceless event is always done |
| LegacyApi.PlayedThroughStays | app/src/api/engmscapi.h:91-96 | once a buffered event has run past the end of its buffer it stays played through as its position grows |
| LegacyApi.Indices | app/src/api/engmscapi.h:107-110 | all four read indices lie inside a non-empty buffer; the first is the position clamped to the buffer and truncated, and each later one falls back to it when it would run off the end |
| LegacyApi.Cubic | app/src/api/engmscapi.h:117-124 | at fraction zero the cubic passes through the second of its four samples |
| LegacyApi.Interpolate | app/src/api/engmscapi.h:103-131 | a sourceless event reads silence, a synthesized one reads its generator, and a buffered one at a whole position reads the second indexed sample |
| LegacyApi.WholePositionReadsNext | app/src/api/engmscapi.h:107-124 | at whole position k the buffered read is the sample at k + 1 (k itself at the last sample), not the sample at k |
| LegacyApi.ConstantSignalPreserved | app/src/api/engmscapi.h:107-124 | interpolating a constant buffer gives that constant at every position |
| LegacyApi.GetRPM | app/src/api/engmscapi.h:209-212 | the reading is never negative and is sixty times the magnitude of the angular velocity |
| LegacyApi.GetRPMSymmetric | app/src/api/engmscapi.h:193-212 | the reading does not depend on the direction of rotation, and a new engine reads 1020 RPM |
| MeshBuilder.ByteSizeAppend | src/MeshBuilder.cpp:393-397 | the byte size of appended data is the sum of the two parts' sizes |
| MeshBuilder.IdentityFixes | src/MeshBuilder.cpp:355-363 | under the identity matrix the stack starts with, neither points nor normals move |
| MeshBuilder.NewBuilder | src/MeshBuilder.cpp:32-47 | a new builder keeps its format, has empty buffers and zero counts, and its stack holds only the identity |
| MeshBuilder.Reset | src/MeshBuilder.cpp:59-65 | reset empties both buffers and zeroes both counts while the format and matrix stack stay |
| MeshBuilder.PushVertexData | src/MeshBuilder.cpp:393-397 | the vertex buffer gains exactly the given data at its end, and its byte size grows by that data's size |
| MeshBuilder.PushIndexData | src/MeshBuilder.cpp:399-403 | the index buffer gains exactly the given indices at its end, four bytes each |
| MeshBuilder.Position | src/MeshBuilder.cpp:121-131 | the point transformed by the top matrix is appended as 12 bytes and the vertex count grows by one |
| MeshBuilder.NormalOf | src/MeshBuilder.cpp:133-143 | the normal transformed by the top matrix's upper-left 3x3 block is appended as 12 bytes and the vertex count stays |
| MeshBuilder.NormalDefault | src/MeshBuilder.cpp:145-148 | the default normal is (0, 1, 0), appended untransformed under the identity |
| MeshBuilder.UvOf | src/MeshBuilder.cpp:150-157 | texture coordinates are appended untransformed as 8 bytes |
| MeshBuilder.UvDefault | src/MeshBuilder.cpp:159-162 | the default texture coordinates are (0, 0) |
| MeshBuilder.ColorRGBA | src/MeshBuilder.cpp:169-176 | a colour is appended as four floats, 16 bytes |
| MeshBuilder.ColorRGB | src/MeshBuilder.cpp:164-167 | a colour without alpha is the opaque one |
| MeshBuilder.ColorDefault | src/MeshBuilder.cpp:178-181 | the default colour is opaque white |
| MeshBuilder.TexIdOf | src/MeshBuilder.cpp:183-188 | a texture id is appended as one unsigned 32-bit value, wrapped to that range, 4 bytes |
| MeshBuilder.OffsetIndicesElement | src/MeshBuilder.cpp:284 | every stored index is an unsigned 32-bit value congruent to the source index plus the base |
| MeshBuilder.ClampCount | src/MeshBuilder.cpp:280 | at most 64 indices are taken, and a request of 64 or fewer is taken whole |
| MeshBuilder.Index | src/MeshBuilder.cpp:274-293 | the index buffer gains the first min(n, 64) indices, each offset by the current index count and wrapped, and the index count grows by the number taken |
| MeshBuilder.Indexv | src/MeshBuilder.cpp:295-318 | whatever the 128-entry batching, the buffer gains all n indices, offset and wrapped, in order, and the index count grows by n |
| MeshBuilder.ToInt16 | src/MeshBuilder.cpp:232-237 | narrowing to `int16_t` lands in its range and leaves values already in range unchanged |
| MeshBuilder.ToInt8 | src/MeshBuilder.cpp:238-243 | narrowing to `int8_t` lands in its range and leaves values already in range unchanged |
| MeshBuilder.Convert | src/MeshBuilder.cpp:224-254 | each component is stored in as many bytes as its attribute type has |
| MeshBuilder.Encode | src/MeshBuilder.cpp:210-256 | the staged components follow the format, each converted to its attribute's type |
| MeshBuilder.FlatKindsBytes | src/MeshBuilder.cpp:197-256 | the per-component widths add up to the format's vertex size |
| MeshBuilder.PosSlot | src/MeshBuilder.cpp:216-220 | the position is the last attribute used as a position, its components lie inside the argument list, and there is none exactly when no attribute is a position |
| MeshBuilder.PositionArg | src/MeshBuilder.cpp:260-264 | the position read is the three float arguments at the position attribute's slot |
| MeshBuilder.VertexRecord | src/MeshBuilder.cpp:190-266 | the staged vertex takes exactly the format's vertex size, holds the transformed position at the position slot and every other component converted |
| MeshBuilder.Vertex | src/MeshBuilder.cpp:190-272 | a whole vertex grows the vertex buffer by exactly one vertex's bytes and the vertex count by one, leaving indices and the stack alone |
| MeshBuilder.GetVertexBuffer | src/MeshBuilder.cpp:325-333 | the vertex data is returned with its size in bytes |
| MeshBuilder.GetIndexBuffer | src/MeshBuilder.cpp:335-343 | the indices are returned with their size in bytes, four per index |
| MeshBuilder.PushMatrix | src/MeshBuilder.cpp:345-348 | pushing duplicates the top, keeping the stack below and the buffers |
| MeshBuilder.PopMatrix | src/MeshBuilder.cpp:350-353 | popping removes exactly the top matrix and keeps the buffers |
| MeshBuilder.ResetMatrixStack | src/MeshBuilder.cpp:355-363 | the stack ends up holding exactly one identity matrix and the buffers stay |
| MeshBuilder.PushPopRestores | src/MeshBuilder.cpp:345-353 | popping right after pushing restores the builder |
| MeshBuilder.GetModelView | src/MeshBuilder.cpp:365-368 | the matrix designated is the top of the stack |
| MeshBuilder.SetModelView | src/MeshBuilder.cpp:365-368 | writing through the reference replaces the top matrix and leaves the stack below and the buffers alone |
| MeshBuilder.PushSetPopRestores | src/MeshBuilder.cpp:345-368 | a point drawn after pushing and overwriting the top is transformed by the new matrix, and popping restores the stack |
| MeshBuilder.IndexOffsetsByIndexCount | src/MeshBuilder.cpp:274-293 | a second `index` call offsets its indices by the index count the first call left, not by the vertex count |
| Meshes.NewMesh | src/Mesh.cpp:125-136 | a new mesh has no data, zero counts, is not renderable and satisfies the mesh invariant |
| Meshes.GetPositions | src/Mesh.cpp:238-242 | the positions are handed out, or nothing exactly when there are none |
| Meshes.GetUVs | src/Mesh.cpp:244-248 | the texture coordinates are handed out, or nothing exactly when there are none |
| Meshes.GetNormals | src/Mesh.cpp:250-254 | the normals are handed out, or nothing exactly when there are none |
| Meshes.GetColors | src/Mesh.cpp:256-260 | the colours are handed out, or nothing exactly when there are none |
| Meshes.EmittedMatchesFormat | src/Mesh.cpp:277-326 | for a format whose declared types match the builder calls, one vertex writes exactly the format's vertex size |
| Meshes.PutAttribute | src/Mesh.cpp:291-324 | each usage writes its fixed number of bytes, a missing array falls back to the builder's default, the texture id is always 0, and only a position counts a vertex |
| Meshes.PutAttributes | src/Mesh.cpp:283-325 | the attributes of one vertex write the sum of their usages' bytes and count one vertex per position attribute |
| Meshes.PutVertex | src/Mesh.cpp:277-326 | one vertex writes one builder call per attribute of the builder's format and never touches the index buffer |
| Meshes.PutVertices | src/Mesh.cpp:164-169 | putting several vertices multiplies the per-vertex bytes and vertex count by their number |
| Meshes.PutMeshArrays | src/Mesh.cpp:158-170 | a mesh without positions or indices writes nothing; otherwise one vertex per index, in index order, and no index data |
| Meshes.PutMeshElements | src/Mesh.cpp:172-184 | a mesh without positions or indices writes nothing; otherwise all its indices, offset by the builder's index count, then every vertex once |
| Meshes.OffsetByZero | src/Mesh.cpp:190-197 | indices that fit in 32 bits pass unchanged through a fresh builder |
| Meshes.MakeRenderable | src/Mesh.cpp:186-215 | the first call uploads a vertex buffer of one vertex per mesh vertex and the mesh's own index list, and every later call changes nothing |
| FontRenderer.SetTextSize | src/FontRenderer.cpp:81-86 | the size is raised to at least 0.1 (kept when already so) and the scale times the font height is the size |
| FontRenderer.NewRenderer | src/FontRenderer.cpp:22-32 | a new renderer draws at size 16 on texture unit 0, with the matching scale |
| FontRenderer.SignedChar | src/FontRenderer.cpp:68 | a byte read through a signed `char` is negative exactly when its top bit is set |
| FontRenderer.Cursor | src/FontRenderer.cpp:62-74 | the width sum of the empty string is 0, and it fails exactly when some byte, read as a signed char, indexes outside the glyph table |
| FontRenderer.GetStringWidth | src/FontRenderer.cpp:57-74 | the width is the cursor times the scale and fails exactly when the cursor does |
| FontRenderer.StringWidthAdditive | src/FontRenderer.cpp:62-74 | the width of a concatenation is the sum of the widths, and it fails exactly when one part does |
| FontRenderer.LeadWidth | src/FontRenderer.cpp:148-155 | the lead tests announce 1 byte for ASCII, 2 for 0xC0-0xDF, 3 for 0xE0-0xEF, 4 for 0xF0-0xF7, and nothing otherwise |
| FontRenderer.DecodeUTF8 | src/FontRenderer.cpp:144-176 | ASCII decodes to itself in one byte; a non-lead byte leaves the caller's byte count and yields 0; a four-byte lead can only reach code points below 0x40000 |
| FontRenderer.EncodeUTF8 | src/FontRenderer.cpp:144-176 | the reference encoder of RFC 3629 section 3 uses one to four bytes by code point range |
| FontRenderer.DecodeEncode | src/FontRenderer.cpp:144-176 | decoding an encoded code point reads exactly its encoding and returns it exactly when it is below 0x40000; four-byte code points come back reduced modulo 0x40000 |
| FontRenderer.ContinuationTagIgnored | src/FontRenderer.cpp:160-161 | the continuation byte's tag bits are never checked; only its low six bits count |
| FontRenderer.DecodeUTF8Fixed | src/FontRenderer.cpp:168-172 | the corrected decoder agrees with the decoder as written except on four-byte sequences |
| FontRenderer.DecodeEncodeFixed | src/FontRenderer.cpp:144-176 | the corrected decoder reads every encoded code point back with the length of its encoding |
| FontRenderer.FourByteLeadBitsLost | src/FontRenderer.cpp:169 | U+40000, encoded F1 80 80 80, is read as 0 as written and as U+40000 when corrected |
| FontRenderer.TextFormatFacts | src/FontRenderer.cpp:198-202 | the text vertex format takes nine floats and one integer, 40 bytes, with the position first |
| FontRenderer.ColorOfPacked | src/FontRenderer.cpp:13-17 | a colour packed as 0xAARRGGBB converts to red, green, blue and alpha in that order, each byte over 255 |
| FontRenderer.PackColorOnto | src/FontRenderer.cpp:13-17 | every 32-bit colour is the packing of its four bytes |
| FontRenderer.GlyphQuad | src/FontRenderer.cpp:198-202 | one quad adds six indices offset by the index count, four vertices and 160 bytes |
| FontRenderer.GenChar | src/FontRenderer.cpp:178-203 | a code point from 256 on draws nothing; any other draws one quad of six indices and four vertices |
| FontRenderer.DecodeAt | src/FontRenderer.cpp:102-105 | at a byte, the decoder either reads past the end of the string, exactly when the announced width overruns it, or moves on by the lead's width (0 for a non-lead byte) and yields what the selected decoder reads there |
| FontRenderer.Step | src/FontRenderer.cpp:102-114 | one turn of the loop over an ASCII byte moves on by one byte and advances the pen by the glyph's advance; on a non-lead byte the loop stalls |
| FontRenderer.GenFrom | src/FontRenderer.cpp:102-114 | the loop adds four vertices and 160 bytes for every six indices, and stalls on a non-lead byte |
| FontRenderer.GenFromAscii | src/FontRenderer.cpp:102-114 | over ASCII bytes whose glyphs exist, the loop finishes and the pen moves by the sum of the scaled advances |
| FontRenderer.GenString | src/FontRenderer.cpp:98-115 | with the decoder as written: ASCII text whose glyphs exist is always drawn, leaving the pen at x plus the summed advances; text starting with a non-lead byte stalls |
| FontRenderer.GenStringFixed | src/FontRenderer.cpp:98-115 | with the corrected decoder the same holds: ASCII text is drawn and a non-lead byte stalls |
| FontRenderer.FourByteReadsLowBits | src/FontRenderer.cpp:102-105 | at the bytes F1 80 81 81 the decoder as written reads 0x41 and the corrected one U+40041, both over four bytes |
| FontRenderer.FourByteDrawsWrongGlyph | src/FontRenderer.cpp:98-115 | `genString` as written draws the bytes F1 80 81 81 as the glyph of 'A' |
| FontRenderer.FourByteFixedOutOfTable | src/FontRenderer.cpp:98-115 | with the corrected decoder the same bytes name a glyph outside the table |
| FontRenderer.PenAdvanceVersusWidth | src/FontRenderer.cpp:62-74 | over ASCII text the pen moves by the string width plus one minus the right padding per character, scaled, so the two agree only with a right padding of 1 |
| FontRenderer.SecondGlyphIndicesOverrun | src/FontRenderer.cpp:198 | two glyphs in a fresh builder give index 9 in the second quad while only vertices 0 to 7 exist |
| BitFlags.PosInjective | src/Keyboard.cpp:54 | distinct bit numbers below 32 give distinct shift amounts |
| BitFlags.GetNthBit | src/Keyboard.cpp:69-79 | the result is 0 or 1, and 1 exactly when the selected bit is set |
| BitFlags.MaskedShift | src/Keyboard.cpp:74-76 | masking a word and shifting it down leaves 1 when the bit is set and 0 when it is not |
| BitFlags.SetNthBit | src/Keyboard.cpp:51-58 | the selected bit is set afterwards and every other bit of the word is unchanged |
| BitFlags.ClearNthBit | src/Keyboard.cpp:60-67 | the selected bit is clear afterwards and every other bit of the word is unchanged |
| BitFlags.SetClearLaws | src/Mouse.cpp:90-106 | setting a set bit is a no-op, and a clear after a set equals the clear alone |
| Keyboard.Chunk | src/Keyboard.cpp:53 | every key below 352 selects a word inside the 88-word array |
| Keyboard.SlotInjective | src/Keyboard.cpp:51-54 | two different keys below 352 never share both word and bit |
| Keyboard.GetKey | src/Keyboard.cpp:69-79 | reading a key's flag gives 0 or 1 |
| Keyboard.SetKey | src/Keyboard.cpp:51-58 | the key reads 1 afterwards and every other key reads as before |
| Keyboard.ClearKey | src/Keyboard.cpp:60-67 | the key reads 0 afterwards and every other key reads as before |
| Keyboard.ZeroedReadsZero | src/Keyboard.cpp:46-48 | every key reads 0 in a zeroed array |
| Keyboard.NewKeyboard | src/Keyboard.cpp:12-22 | a new keyboard reports no key pressed, down, released or repeating |
| Keyboard.OnKeyEvent | src/Keyboard.cpp:81-99 | a press sets pressed and down, a release clears down and sets released, a repeat sets repeating, other actions change nothing, and no other key is affected |
| Keyboard.PollInputs | src/Keyboard.cpp:44-49 | after a poll no key is just pressed, just released or repeating, and the down states are kept |
| Keyboard.PressThenRelease | src/Keyboard.cpp:24-49 | a press then a release leaves the key up and just released, and still just pressed exactly when no poll came between |
| Mouse.NewMouseIsIdle | src/Mouse.cpp:14-79 | a new mouse reports no button pressed, just pressed or just released, no scroll and zero cursor deltas |
| Mouse.OnMouseEvent | src/Mouse.cpp:120-134 | a press sets pressed and down, a release clears down and sets released, a repeat changes nothing; other buttons, the cursor and the scroll are untouched |
| Mouse.OnCursorMove | src/Mouse.cpp:136-142 | only the cursor changes, so the deltas become the distance from the previous frame's position |
| Mouse.OnScroll | src/Mouse.cpp:144-151 | the scroll delta is recorded and the scrolled flag raised; nothing else changes |
| Mouse.PollInputs | src/Mouse.cpp:81-88 | after a poll no button is just pressed or released, the scroll flag is down, the deltas are zero and the held buttons are kept |
| Mouse.DeltaIsNetMovement | src/Mouse.cpp:56-64 | after a poll and any two moves, the deltas are the last position minus the position at the poll |
| Mouse.PressThenPoll | src/Mouse.cpp:81-88 | a pressed button is still held but no longer just pressed after the next poll |
| Mouse.RawSetNthBit | src/Mouse.cpp:90-97 | as written, the helper sets bit `bit % 32` of word `base + bit / 4` and leaves every other word alone |
| Mouse.RawGetNthBit | src/Mouse.cpp:108-118 | as written, the getter reads bit `bit % 32` of word `base + bit / 4` |
| Mouse.RawPress | src/Mouse.cpp:124-128 | a press as written keeps the number of words |
| Mouse.RawPoll | src/Mouse.cpp:81-85 | a poll as written zeroes the pressed and released words and keeps the down word |
| Mouse.RawAgreesBelowFour | src/Mouse.cpp:90-97 | for buttons 0 to 3 the helper as written equals the one-word update |
| Mouse.FifthButtonLeaksIntoDown | src/Mouse.cpp:90-97 | a press of button 4 as written sets bit 4 of the down and released words instead; after the next poll button 4 still reads just pressed and no longer reads held |
| Shaders.InitialGlobals | src/Shaders.cpp:17-25 | before any call every uniform is dirty, no program is bound and the module is uninitialised |
| Shaders.SetProjectionMatrix | src/Shaders.cpp:182-186 | the matrix is stored and only the projection bit becomes dirty; every other bit and field is kept |
| Shaders.SetModelviewMatrix | src/Shaders.cpp:188-192 | the matrix is stored and only the model-view bit becomes dirty; every other bit and field is kept |
| Shaders.SetColor | src/Shaders.cpp:194-203 | the colour is stored and only the colour bit becomes dirty; every other bit and field is kept |
| Shaders.InitModule | src/Shaders.cpp:226-239 | the unit count is the driver's, capped at 32; the first that many table entries name their own unit and the rest are kept |
| Shaders.Init | src/Shaders.cpp:52-123 | the shader is marked initialised, and its id is the created program when both stages compile and 0 otherwise, whatever the link result |
| Shaders.Pending | src/Shaders.cpp:141-144 | a uniform is uploaded exactly when its dirty bit is set |
| Shaders.ClearUniformBits | src/Shaders.cpp:125 | after the uploads none of the four uniform bits is set and every higher bit is kept |
| Shaders.LowNibbleCleared | src/Shaders.cpp:125 | masking with 0xFFFFFFF0 clears exactly bits 0 to 3 |
| Shaders.Use | src/Shaders.cpp:127-145 | the module and the shader end up initialised; a zero id uploads nothing; binding a different program uploads all four uniforms; re-using the bound program uploads exactly the dirty ones; no uniform bit stays dirty |
| Shaders.UseUploadsOnlyWhatChanged | src/Shaders.cpp:127-145 | a second use of the same shader uploads nothing, and after a colour change it uploads only the colour |
| Timer.NewTimer | src/Animation.cpp:128-133 | a tick lasts 1 / tps and the first tick is due at construction time |
| Timer.TicksPassed | src/Animation.cpp:135-148 | the next tick moves forward by the returned number of whole ticks, ends no earlier than now and less than a tick past it when any tick passed, and no tick passes exactly when the next tick was not yet due |
| Timer.PartialTicks | src/Animation.cpp:155-162 | the fraction times the tick length is the time since the current tick began (one tick before the next is due), and 0 before that |
| Timer.PartialTicksEnds | src/Animation.cpp:155-162 | the fraction is 0 until the current tick has begun and 1 when the next tick is due |
| Timer.PartialAfterCatchUp | src/Animation.cpp:155-162 | once the next tick is not in the past, the fraction lies between 0 and 1 |
| Timer.Lerp | src/Animation.cpp:164-168 | the result has gone the partial-tick fraction of the way from start to end: start until the current tick begins, end when the next tick is due, and between the two for a fraction up to 1 |
| Timer.Interpolate | src/Animation.cpp:167 | the result lies the fraction p of the way from start to end: p is recovered from it, 0 gives start, 1 gives end, and for p up to 1 it lies between the two |
| Timer.ScaleBetween | src/Animation.cpp:167 | moving from a towards b by a fraction between 0 and 1 stays between a and b |
| Logger.NewLogger | src/Logger.cpp:11-14 | a new logger has the given module name and no submodule |
| Logger.Submodule | src/Logger.cpp:21-26 | the submodule name is set and the module name kept |
| Logger.Truncate | src/Logger.cpp:30-34 | the kept message is a prefix of at most 4095 bytes, and the whole message when it fits |
| Logger.Emit | src/Logger.cpp:28-114 | the line is the level, module and (when set) submodule tags, a colon, the truncated message and a newline; the submodule is cleared afterwards |
| Logger.SubmoduleLastsOneLine | src/Logger.cpp:37-45 | a submodule tags the next line only; the line after carries just the level and module |
| Logger.LineEndsWithMessage | src/Logger.cpp:28-48 | the text before the final newline ends with a prefix of the message, the whole message when it fits |
| ExhaustCanvas.NewCanvas | app/include/engmsc-app/ExhaustConfigCanvas.hpp:20-22 | a new canvas has one cylinder, the first selected, sixteen zero offsets and no callback |
| ExhaustCanvas.SetNbCylinders | app/src/ExhaustConfigCanvas.cpp:151-158 | the count is stored and a selection beyond it is pulled down to it; the offsets and the callback are kept |
| ExhaustCanvas.SetOffsets | app/src/ExhaustConfigCanvas.cpp:160-166 | the first `length` offsets are taken from the input and the rest kept |
| ExhaustCanvas.FirstHit | app/src/ExhaustConfigCanvas.cpp:136-146 | the result is the first marker band containing x, or none when no band contains it |
| ExhaustCanvas.MouseButtonEvent | app/src/ExhaustConfigCanvas.cpp:132-149 | a click is consumed exactly when some band contains it; it then selects a cylinder whose band holds it and fires the callback if set; otherwise nothing changes |
| ExhaustCanvas.BandsDisjoint | app/src/ExhaustConfigCanvas.cpp:138-140 | on a canvas of positive width, a point lies in at most one band |
| ExhaustCanvas.NoHitOnEmptyCanvas | app/src/ExhaustConfigCanvas.cpp:134-148 | on a canvas of width zero or less no click is consumed |
| ExhaustCanvas.SelectionStaysInRange | app/src/ExhaustConfigCanvas.cpp:132-175 | a selection between 1 and the cylinder count stays in range through clicks, positive count changes and callback changes |
| ToolsCore.NeedHelp | tools/tools_core.py:12-17 | true exactly when some argument is `-h` or `--help` |
| ToolsCore.Basename | tools/tools_core.py:20 | the result has no `/` and is no longer than the path |
| ToolsCore.BasenameIsSuffix | tools/tools_core.py:20 | the basename is a suffix of the path, preceded by a `/` whenever it is shorter than the path |
| ToolsCore.BasenameOfJoin | tools/tools_core.py:20 | the basename of `dir/file` is `file` whatever the directory |
| ToolsCore.BasenameIdentity | tools/tools_core.py:20 | a name without `/` is its own basename |
| ToolsCore.GetToolName | tools/tools_core.py:19-29 | the configured name of the script's basename, and `"unknown"` when the script or its name is missing |
| ToolsCore.GetToolOptions | tools/tools_core.py:48-58 | the configured options of the script's basename, and none when the script or its options are missing |
| ToolsCore.LookupsIgnoreDirectory | tools/tools_core.py:19-58 | name and options lookups give the same answer for a script and for that script inside any directory |
| ToolsCore.GetToolHelp | tools/tools_core.py:31-46 | the help is `"not available"` exactly when no README line starts the script's section |
| ToolsCore.ScanFallback | tools/tools_core.py:34-45 | the loop leaves the fallback text exactly when no start line occurs |
| ToolsCore.ScanWithoutStart | tools/tools_core.py:37-45 | without a start line the loop gathers nothing |
| ToolsCore.ScanFindsStart | tools/tools_core.py:37-45 | once a start line occurs the result is never the fallback text |
| ToolsCore.CopyEndsInNewline | tools/tools_core.py:43-44 | while copying, the gathered text always ends in a newline |
| ToolsCore.ScanCopiesBody | tools/tools_core.py:43-44 | while copying, lines without markers are appended in order, each followed by a newline |
| ToolsCore.ScanSkipsPreamble | tools/tools_core.py:37-42 | lines before the first start line do not affect the result |
| ToolsCore.ScanAtStart | tools/tools_core.py:38-40 | a start line discards what was gathered and begins the text with itself |
| ToolsCore.ScanAtEnd | tools/tools_core.py:41-42 | an `EndScript` line while copying stops the loop with the text gathered so far |
| ToolsCore.HelpIsTheSection | tools/tools_core.py:31-46 | for a README of preamble, start line, body and `EndScript`, the help is the start line and the body, one line each |
| ToolsCore.HelpRunsToEnd | tools/tools_core.py:31-46 | a section that is never closed runs to the end of the README |
| ToolsCore.HelpRestartsAtRepeatedStart | tools/tools_core.py:38-40 | a second start line before `EndScript` gives the same help as a README starting at that second line |
| ToolsCore.CopyUntilRestart | tools/tools_core.py:38-44 | copying lines without `EndScript` up to a start line gives the same result as starting afresh at that line |
| FontConverter.DigitChar | tools/font_converter.py:62 | a digit character whose value is the given digit |
| FontConverter.Digits | tools/font_converter.py:62 | a non-empty run of decimal digits, of length 1 exactly for values below 10 |
| FontConverter.ShowInt | tools/font_converter.py:62 | a sign or digit followed only by digits |
| FontConverter.DigitsValue | tools/font_converter.py:62 | a single digit is worth its own value |
| FontConverter.ParseInt | tools/font_converter.py:62-71 | a token is read as a number exactly when it is digits, optionally after one sign |
| FontConverter.DigitsRoundTrip | tools/font_converter.py:62 | the value of the digits of n is n |
| FontConverter.ParseShowInt | tools/font_converter.py:62 | reading a written integer gives it back |
| FontConverter.Normalize | tools/font_converter.py:51 | no newline, `=`, `,` or double quote survives, and the text never grows |
| FontConverter.NormalizeAppend | tools/font_converter.py:51 | cleaning two pieces and joining them equals cleaning the joined text |
| FontConverter.NormalizeKeepsPlainText | tools/font_converter.py:51 | text without the four special characters is unchanged |
| FontConverter.Split | tools/font_converter.py:52 | at least one piece, and no piece holds a space |
| FontConverter.JoinSplit | tools/font_converter.py:52 | joining the pieces with single spaces gives the text back |
| FontConverter.SplitJoin | tools/font_converter.py:52 | splitting the space-join of space-free pieces gives those pieces back |
| FontConverter.SplitWord | tools/font_converter.py:52 | a space-free text is one piece |
| FontConverter.DoubleSpaceGivesEmptyToken | tools/font_converter.py:52 | two spaces in a row leave an empty token between the words |
| FontConverter.Tokenize | tools/font_converter.py:51-53 | no token contains a space, newline, `=`, `,` or double quote |
| FontConverter.TokenIsPart | tools/font_converter.py:52 | every character of a piece occurs in the joined text |
| FontConverter.Next | tools/font_converter.py:58 | an empty stream fails as truncated, otherwise the first token and the rest are returned |
| FontConverter.NextInt | tools/font_converter.py:62 | an empty stream fails as truncated, a non-number fails, and otherwise the first token's value and the rest are returned |
| FontConverter.ReadPadding | tools/font_converter.py:61-65 | on success the four tokens become top, right, bottom and left in that order and nothing else changes; with numeric tokens it fails only when fewer than four remain |
| FontConverter.ParseHeader | tools/font_converter.py:56-72 | on success what is left is a suffix of the stream |
| FontConverter.HeaderSkipsOtherTokens | tools/font_converter.py:56-72 | a stream without header keywords changes nothing and is used up |
| FontConverter.PaddingOrder | tools/font_converter.py:61-65 | `padding a b c d` sets top a, right b, bottom c and left d and goes on |
| FontConverter.StopsAfterCharsCount | tools/font_converter.py:70-72 | `chars count N` records N and leaves everything after it for the glyphs |
| FontConverter.GlyphStep | tools/font_converter.py:126-143 | a turn consumes at least one token, only the latest glyph can change or a glyph be added, and it fails for want of a glyph exactly when a field with a numeric value comes before any glyph |
| FontConverter.ParseGlyphs | tools/font_converter.py:126-143 | on success glyphs before the latest one are never changed and none are removed |
| FontConverter.NumberIsNoKeyword | tools/font_converter.py:126-143 | a written number is never a field name, `char`, `id` or header keyword |
| FontConverter.StepField | tools/font_converter.py:130-143 | a field and its value set that field of the latest glyph |
| FontConverter.StepChar | tools/font_converter.py:127-143 | one `char` line appends exactly the glyph it describes |
| FontConverter.GlyphsRoundTrip | tools/font_converter.py:113-143 | reading the lines of a list of glyphs gives exactly that list, in order |
| FontConverter.StepFirstChar | tools/font_converter.py:126-143 | the first glyph's line appends that glyph and leaves the rest to read |
| FontConverter.FieldBeforeGlyphFails | tools/font_converter.py:130-131 | a field line before any `char id` fails |
| FontConverter.ReadFont | tools/font_converter.py:31-72 | a font is read only when its header is read |
| FontConverter.ReadFontRoundTrip | tools/font_converter.py:56-143 | a file whose tokens are `chars count N` and the lines of some glyphs reads back as the default header with count N and exactly those glyphs |
| FontHeaderWriter.ImageName | tools/font_converter.py:83 | the name is the part of the path before its first dot |
| FontHeaderWriter.ImageNameOfDotted | tools/font_converter.py:83 | whatever follows the first dot does not change the name |
| FontHeaderWriter.HexDigit | tools/font_converter.py:94 | a digit or upper-case letter A to F |
| FontHeaderWriter.HexValue | tools/font_converter.py:94 | the value of a hex digit is below 16 |
| FontHeaderWriter.Hex2 | tools/font_converter.py:94-98 | every byte is written as exactly two characters |
| FontHeaderWriter.Hex2RoundTrip | tools/font_converter.py:94-98 | the two digits read back as the byte |
| FontHeaderWriter.Hex2Injective | tools/font_converter.py:94-98 | different bytes are written differently |
| FontHeaderWriter.WriteImageData | tools/font_converter.py:79-109 | the loop with its wrapping counter writes the reference image section: opening, the bytes in order, a newline after every 20th, one more when the last line is short, and the closing |
| FontHeaderWriter.CountAppend | tools/font_converter.py:100-107 | newlines of a concatenation add up |
| FontHeaderWriter.ItemNewlines | tools/font_converter.py:100-101 | a byte's text holds a newline exactly when it is the 20th of its line |
| FontHeaderWriter.ItemsNewlines | tools/font_converter.py:93-104 | the first n bytes carry n / 20 newlines |
| FontHeaderWriter.DivStep | tools/font_converter.py:103-104 | one more byte adds one full line exactly when the counter wraps |
| FontHeaderWriter.ImageSectionLines | tools/font_converter.py:89-109 | the image section has one line per 20 bytes rounded up, plus four |
| FontHeaderWriter.RoundUp | tools/font_converter.py:106-107 | full lines plus one for a partial line is the byte count divided by 20 rounded up |
| FontHeaderWriter.LastItemHasNoComma | tools/font_converter.py:94-96 | every byte is `0x` and its digits, and only the last has no comma after it |
| FontHeaderWriter.LastWithId | tools/font_converter.py:148-152 | the position of the last glyph with the id, or none when no glyph has it |
| FontHeaderWriter.LookupIsLastMatch | tools/font_converter.py:149-152 | the inner loop keeps the last glyph with the id, and the starting glyph when there is none |
| FontHeaderWriter.LastWithIdIs | tools/font_converter.py:149-152 | a glyph with the id and none after it is the one found |
| FontHeaderWriter.LastWithIdNone | tools/font_converter.py:149-152 | no glyph with the id means none is found |
| FontHeaderWriter.RowGlyphChoice | tools/font_converter.py:148-152 | a row shows the last glyph with its id, and a blank glyph when none has it |
| FontHeaderWriter.LaterGlyphWins | tools/font_converter.py:150-152 | a glyph read later replaces any earlier one with the same id |
| FontHeaderWriter.OutOfRangeGlyphDropped | tools/font_converter.py:148 | a glyph whose id is outside 0 to 254 changes no row |
| FontHeaderWriter.Field | tools/font_converter.py:147 | a number right-aligned in at least four columns and never cut |
| FontHeaderWriter.Spaces | tools/font_converter.py:147 | k spaces |
| FontHeaderWriter.FieldWidth | tools/font_converter.py:147 | values from -999 to 9999 take exactly four columns |
| FontHeaderWriter.ShowIntLength | tools/font_converter.py:147 | values from -999 to 9999 are written in at most four characters |
| FontHeaderWriter.DigitsLength | tools/font_converter.py:147 | values up to 9999 have at most four digits, and up to 999 at most three |
| FontHeaderWriter.JoinFieldsLength | tools/font_converter.py:147 | k fields of four columns joined by `, ` take 6k - 2 characters |
| FontHeaderWriter.RowLength | tools/font_converter.py:147-162 | with every value within four columns, each table row is 48 characters |
| FontHeaderWriter.RowNewlines | tools/font_converter.py:147 | each row is one line |
| FontHeaderWriter.JoinFieldsNoNewline | tools/font_converter.py:147 | the fields of a row contain no newline |
| FontHeaderWriter.RowsNewlines | tools/font_converter.py:148-162 | the table has exactly one line per row |
| AudioInsert.ApplyFilters | src/AudioStream.cpp:224-234 | the filter chain keeps the block length, and with no filters the dry signal passes through unchanged |
| AudioStream.FillFrom | src/AudioStream.cpp:190-292 | the loop moves every input slot to the output queue in order, keeps the slot invariant and the event count, and keeps the start time |
| AudioStream.FillFromClock | src/AudioStream.cpp:190-292 | the loop advances the block clock as its reference timeline says, one `NextTime` step per drained slot |
| FontRenderer.QuadCorners | src/FontRenderer.cpp:187-202 | a glyph gives four vertices, each in the text vertex format |
| FontRenderer.TextVertex | src/FontRenderer.cpp:199-202 | each text vertex adds one vertex of 40 bytes and leaves the indices alone |
| FontRenderer.TextVertices | src/FontRenderer.cpp:199-202 | the corner vertices, emitted in order, add one vertex and 40 bytes each and leave the indices alone |

## Left out

- Threads and locking: the stream's mutex, the legacy API's two threads with their condition variables, and the OpenAL context and voices. Each public call is modelled as one sequential step.
- Audio I/O and DSP: OpenAL queueing, FFmpeg conversion, `KickProducer::genSample`, the wind noise, the Butterworth filters and the band filter. Sample values come from generators given as parameters, and filters from a length-preserving filter bank.
- Rendering: `drawArrays`, `drawElements`, `initForRendering`, `render`, `Mesh::load` (assimp, stb), textures, `bindAtlas` and `initToRender`, the shader sources, and OpenGL uploads. `makeRenderable` is modelled by keeping the buffers it would upload.
- Window, UI and program entry: GLFW callback registration, nanogui widgets, `main` in both programs, and the Python tools' `main` and `print` calls.
- Floating point: every `float` and `double` is an exact real, so rounding and the float bit patterns in the mesh buffers are not modelled. Only the byte widths are.
- File I/O in the Python tools: the tools read their text, lines and bytes as in-memory values. `splitlines` is taken as given, and the `font_struct_template` expansion of `write_font_struct` is not modelled.
- FontConverter.ParseInt: Python's `int()` also accepts surrounding whitespace, underscores between digits and non-ASCII digits. The model accepts only an optional sign followed by ASCII digits.
- MeshBuilder.hpp is not part of this model. The attribute layout is taken from `MeshBuilder.cpp` and `Mesh.cpp`.
- MeshBuilder.Vertex: requires the position attribute to be of float type, whereas the source only asserts that it has three components.
- The UTF-8 decoder's bit fields are combined with `+`, which equals `|` because the fields never share bits. `size_t` overflow of the mesh builder's byte counts is not modelled, since its sizes are unbounded integers.
- Keyboard.OnKeyEvent: requires a key from 0 to 351. GLFW's `GLFW_KEY_UNKNOWN` (-1) would make the source index outside the flag arrays, and it is excluded.
- Mouse.OnMouseEvent: models the evident one-word reading for buttons 0 to 31. The as-written word selection is `Mouse.RawSetNthBit` (see Findings).
- Timer.NewTimer: requires a positive tick rate. At rate 0 the source's tick length is an infinite `double`, which no real number represents: `ticksPassed` then steps at most once. At a negative rate `ticksPassed` loops forever once the next tick is in the past, and returns 0 otherwise.
- Logger.Emit: takes the already expanded message. `printf` formatting, and the cut-off of a `%s` argument at a NUL character, are not modelled.
- Shaders.Init: the link result is only logged by the source and does not affect the id, so it is not a parameter.
- The EMTimer header is out of date with `Animation.cpp`, and the model follows the `.cpp`.
- EngineAudio: `m_pos` and `m_pitch` of the producer are not used by the mixing path and are not modelled.
- EngineAudio.EnginePlace: when the log runs out the source reads past the end of the deque, which is undefined; the model then leaves the feed alone and adds nothing.
- The engmsc `AudioStream` (`app/src/api/AudioStream.cpp`, `include/engmsc/AudioStream.hpp`), which plays the kick and wind producers through the `IAudioProducer` interface, is not part of this model. `KickOps` and `WindOps` state only those producers' own duration and expiry answers.
- Producer sharing: the source's events hold producer pointers, so two events can share one producer, which each then advances and deletes (`src/AudioStream.cpp:249`, `:269`). Here every event holds its own producer value, so that sharing, and the double delete it leads to, are not modelled.
- AudioInsert.FilterBank: filters are stateless functions of the filter and the input block. `EMAudioFilter::filter` is non-const, so a real filter can keep state from one block to the next and between inserts that share it; that state, and the sharing, are not modelled.
- AudioInsert.RemoveFilter: the source deletes the filter object but leaves its pointer in the chain (`src/AudioStream.cpp:51-62`), so the next fill calls `filter()` on a destroyed object (`src/AudioStream.cpp:224-234`), which is undefined. The model keeps applying the filter as if it were alive, and does not model the destruction or the undefined call.
- AudioStream.GetNextBuffer: the source returns a pointer into the slot it has just put back on the input queue, so the next fill may overwrite the data before the caller has read it. The model returns a copy of the samples.
- AudioEvent.NewEvent: the start flag and start time are left uninitialised by the constructor. They are parameters here, standing for whatever the memory held.
- LegacyApi.Interpolate: reads the sound's own sample buffer. The legacy stream actually reads a converted copy that it caches (`app/src/api/AudioStream.cpp:167-190`), which is not part of this model.
- LegacyApi.PlayedThrough: compares the position with the length of the sound's own buffer, where the source uses the length of that same cached copy (`app/src/api/engmscapi.h:95`).
- LegacyApi.SynthSoundEvent: the generator's event argument is left out. The synthesizer callback is an opaque function of the position.
- The mesh builder's matrices are real 4x4 matrices, and `position` and `normal` transform by the top one. `glm`'s matrix construction and multiplication helpers are not modelled: a caller changes the matrix only by writing through `getModelView`, which is `SetModelView` here.

## Findings

| source | as written | input that shows it | evidently intended | confidence | as-written member | corrected member |
|---|---|---|---|---|---|---|
| src/FontRenderer.cpp:169 | the four-byte case takes `(str[0] & 8) << 18`, but bit 3 of a `11110xxx` lead is always 0, so the lead's three payload bits are lost | bytes F1 80 80 80 (U+40000) decode to 0 | `(str[0] & 7) << 18`, as section 3 of RFC 3629 prescribes | high; not executed | FontRenderer.FourByteLeadBitsLost | FontRenderer.DecodeEncodeFixed |
| src/Mouse.cpp:90-97 | the word is chosen as `flagBuffer + bit / 4` on a single `uint32_t` field, so buttons 4 and up write past the field | a press of button 4 sets bit 4 of the down and released words; after the next poll button 4 still reads just pressed and no longer reads held | the single flag word, bit `button` | medium, depends on the field layout; not executed | Mouse.FifthButtonLeaksIntoDown | Mouse.PressThenPoll |
