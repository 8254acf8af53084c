# A verified model of pH

pH runs a Linux guest under KVM and shows its windows on the host. Two programs
do the work: the hypervisor (`src/`, Rust) with its virtual devices, and
sommelier (`sommelier/`, C++), the Wayland compositor proxy inside the guest,
which also carries X11 windows and the clipboard. This project models the parts
with the most state and proves what they are there to keep. The command that
checks it is `dafny verify dfyconfig.toml`.

| files | what they model |
|---|---|
| `PixelCopy`, `Damage`, `SurfaceModel`, `SurfaceRuns`, `LostDamage`, `HostSurface` | the buffer queue of a surface: attach, damage, commit, release, and the row-by-row pixel copy |
| `MmapRefs` | reference counts of client mappings |
| `SelectionSend`, `SelectionReceive`, `SelectionQueue` | the clipboard in both directions, with incremental transfers |
| `WindowScale` | the per-window scale of direct scaling, in double arithmetic |
| `ConfigureAcks` | `xdg_surface` configure and acknowledge |
| `BitSet`, `OverlaySpec`, `DiskImage` | the disk image with a memory overlay |
| `ShmMapper` | KVM memory slots and guest address ranges of shared memory |
| `IoBus` | the address map of the I/O bus |
| `Uart`, `SerialDevice` | the serial port |
| `NetRx` | the receive path of virtio-net |
| `NetlinkFormat`, `Netlink` | netlink messages and replies |
| `CmdLine` | the kernel command line, printed and parsed |
| `Bytes` | bytes, optional values, 32-bit conversions |

State that the source updates in place is a class; each of its methods is proved
to take the step of a function on values, and the properties are proved about
runs of those steps, for every sequence of events. The environment (X server,
host compositor, KVM, tap, file descriptors, epoll) is a parameter of the
events: what it answers is part of the run. What a theorem asks of a run beyond
that (a client that damages what it changes, a value that is not overtaken by
another) stands in its `requires`, and where the code does not see to it, a
theorem below says that the condition is exact.

## What the code does differently from what it is for

Ten properties fail for the code as written. The model keeps the code, and each
has a theorem with the exact condition and a lemma at an input that fails.

- The overlay's shortcut (`src/disk/memory.rs:49`) tests sectors 0..n instead of
  start..start+n, so a written sector can come back as the base image:
  `ReadCorrectIff` gives the condition, `StaleReadExample` an instance.
- `insert` on the bus computes the last address in 64-bit arithmetic; a range
  that wraps around passes over devices above its base: `VerdictRightIff`,
  `WrappedOverlapExample`. (A debug build panics on the overflow instead.)
- A nested netlink attribute's length is cast to 16 bits without the assertion
  that plain attributes have: `BuiltRoundTripIff`, `OversizedNestedExample`.
- A command line value that starts with `=` loses it: `RoundTripIff`,
  `LeadingEqualsLost`.
- A damage request that ends beyond the int32 range is dropped whole, and so is
  a rectangle whose scaled edge does, so the pixels it announces stay as they
  were; and the damage that makes a new buffer copied whole reaches only so far.
  `ReliableIff` gives the condition over all runs, `WholeRangeLost` a request and
  `BeyondReach` a frame that fail.
- The size of a client mapping is computed from the stride, which nothing
  compares with the width: the row copy stays inside the mapping iff the stride
  holds a row, `MappingHoldsCopyIff`, `ShortStrideExample`.
- The incremental flag of a clipboard transfer survives into the next request,
  and it is cleared when the clipboard changes hands. So an announcement can be
  written as data, a value can be taken while another one is being written, and
  an fd can be closed as complete with more to come. Every stream is right
  throughout a run iff none of these happens: `IntegrityIff`, with
  `StaleIncrementalFlag`, `ValueWrittenTwice` and `OwnerChangeCutsShort`. Between
  two values the change of hands stops all requests: `OwnerChangeStalls`.
- The cycle from pixels to logical size and back under a window's own scale is
  exact iff the recomputed size is the cached one or the scale is below one half:
  `CycleExactIff`, `CycleInDoubles`, and `CycleCanFail` for 9 pixels at scale 1.25.
- A receive chain is not given up when a frame is in it, so two frames can end up
  in one virtio chain: `OneEachIff` over all runs, `SharedChain`.
- A geometry that comes while a serial waits, and before its own serial, takes the
  place of the one that came with it, and the waiting serial is acknowledged with
  it: `WaitingGeometry` gives the condition, `OvertakenGeometry` an instance.

Other quirks that the model keeps: the serial port looks for the FIFO clear bits
in the line control register, its interrupt identification register always reads
as zero, and interrupts are enabled through the divisor latch
(`LineControlReadsBackIff`, `IdentificationReadsZero`, `NoInterruptWithoutLatch`);
the error code of a netlink reply is passed on with the kernel's negative sign
(`ReplyOutcome`).

## Model

| member | source | states |
|---|---|---|
| `ShmFormats.SizeForShmFormat` | sommelier/compositor/sommelier-shm.cc:103-123 | the mapping size reaches the end of every plane and of no more than one; the planes follow each other; height times stride for one plane, half as much again for NV12 |
| `PixelCopy.CopyRows` | sommelier/compositor/sommelier-compositor.cc:589-607 | the strided memcpy loop leaves exactly the two-dimensional copy of the box, with every access inside both mappings |
| `PixelCopy.CopyRow` | sommelier/compositor/sommelier-compositor.cc:601-605 | one memcpy advances the finished rows by one |
| `PixelCopy.CopyBoxPixel` | sommelier/compositor/sommelier-compositor.cc:578-607 | after the copy a pixel is the source's inside the box and unchanged outside |
| `PixelCopy.CopyBoxFrame` | sommelier/compositor/sommelier-compositor.cc:578-607 | a byte that belongs to no pixel of the box, such as row padding, is untouched |
| `PixelCopy.RowInBounds` | sommelier/compositor/sommelier-compositor.cc:592-605 | each row of a clipped box lies inside a mapping that holds every pixel |
| `PixelCopy.RowsInsideIff` | sommelier/compositor/sommelier-compositor.cc:589-607 | whatever the box, the copy stays inside the mapping iff the mapping holds every pixel |
| `PixelCopy.MappingHoldsCopyIff` | sommelier/compositor/sommelier-shm.cc:125-164 | the mapping made for a single-plane buffer, of the computed size, holds every row that is copied iff the stride is at least a row of pixels |
| `PixelCopy.StrideNeeded` | sommelier/compositor/sommelier-shm.cc:30-123 | in numbers: the rows of the first plane stay inside it iff the stride is at least a byte a pixel in NV12, two in RGB565, and four in the formats with eight bits a channel |
| `PixelCopy.SharedStrideFits` | sommelier/compositor/sommelier-compositor.cc:286-321 | without dmabuf the output buffer, which takes over the client's stride and size, fits whenever the rows read lie inside the client's mapping |
| `PixelCopy.ShortStrideExample` | sommelier/compositor/sommelier-shm.cc:125-164 | a buffer 2 pixels wide with a stride of 4, at any height: its last row ends 4 bytes behind the mapping |
| `Damage.RequestKeptIff` | sommelier/compositor/sommelier-compositor.cc:441-448 | a damage request is recorded in full iff it is empty or ends within int32 |
| `Damage.EnclosingExact` | sommelier/compositor/sommelier-compositor.cc:578-587 | for an integer scale the copied box holds exactly the frame pixels of the scaled rectangle |
| `Damage.DamageCopiedIff` | sommelier/compositor/sommelier-compositor.cc:578-589 | a damage rectangle is copied in full iff its scaled edges fit int32 or it misses the frame |
| `Damage.FullRegionCovers` | sommelier/compositor/sommelier-compositor.cc:225-228 | at every scale, the pixels that the damage of a new buffer covers: those below MAX_SIZE times the scale, none once that leaves int32 |
| `Damage.CopyRegionPixel` | sommelier/compositor/sommelier-compositor.cc:679-706 | copying a region takes each touched pixel from the source and keeps all others |
| `SurfaceModel.DropMismatchedSuffix` | sommelier/compositor/sommelier-compositor.cc:190-206 | released buffers are dropped up to the first that fits, and none that fits is dropped |
| `SurfaceModel.AttachPicks` | sommelier/compositor/sommelier-compositor.cc:147-228 | an attach of shm contents gives up the released buffers in front of the first that fits and takes that one, or a new one if none fits, and touches no busy buffer |
| `SurfaceModel.ReleasedFirst` | sommelier/compositor/sommelier-compositor.cc:97-106 | a released buffer comes first among the released ones, wherever it was; all others keep their list and order |
| `SurfaceModel.StepWellFormed` | sommelier/compositor/sommelier-compositor.cc:97-717 | every request keeps each buffer in exactly one list, and pending contents keep a released current buffer of their size and format |
| `SurfaceRuns.RefreshShows` | sommelier/compositor/sommelier-compositor.cc:679-713 | copying a tracking buffer's damage from honest contents makes it equal them at every pixel that a new buffer's damage reaches |
| `SurfaceRuns.StepKeeps` | sommelier/README.md:83-96 | every request, and every honest commit, keeps every live buffer up to date outside its damage, for contents of any size |
| `SurfaceRuns.DamageInvariant` | sommelier/README.md:83-96 | in every run where changed pixels are covered by some damage that is honoured, whatever else is sent, each live buffer agrees with the last committed frame at every shared pixel outside its accumulated damage that a new buffer's damage reaches, also across resizes |
| `SurfaceRuns.CommitShowsFrame` | sommelier/compositor/sommelier-compositor.cc:668-717 | after every shm commit the buffer handed over has the contents' size and format and equals them at every pixel within that reach |
| `SurfaceRuns.OnlyCurrentWritten` | sommelier/compositor/sommelier-compositor.cc:147-717 | the memory of a live buffer changes only at a commit, and then it is the released, matching current buffer |
| `LostDamage.ReliableIff` | sommelier/compositor/sommelier-compositor.cc:427-478 | a client that damages what it changes may rely on a request in every run, with frames of the given size, iff a new buffer's damage reaches the whole frame, and the request and its scaled edges end within int32 or it has no pixel of the frame |
| `LostDamage.BeyondReach` | sommelier/compositor/sommelier-compositor.cc:225-228 | the first commit of a frame does not show a pixel beyond that reach |
| `LostDamage.WholeRangeLost` | sommelier/compositor/sommelier-compositor.cc:578-589 | damage of the whole int32 range is lost at scale 2 for frames of every size; at scale 1 it is honoured iff a new buffer's damage reaches the whole frame |
| `HostSurface.CopyRects` | sommelier/compositor/sommelier-compositor.cc:679-706 | the rectangle loop copies the region in place |
| `HostSurface.UnionSurfaceDamageLists` | sommelier/compositor/sommelier-compositor.cc:441-448 | the rectangle is added to the surface damage of every busy and released buffer |
| `HostSurface.UnionBufferDamageLists` | sommelier/compositor/sommelier-compositor.cc:471-478 | the rectangle is added to the buffer damage of every busy and released buffer |
| `HostSurface.RefreshBuffer` | sommelier/compositor/sommelier-compositor.cc:679-713 | both damage regions are copied into the current buffer, then cleared |
| `HostSurface.FirstMatch` | sommelier/compositor/sommelier-compositor.cc:190-206 | the loop over released buffers leaves the suffix that starts with the first fitting one, which is current |
| `HostSurface.Surface.constructor` | sommelier/compositor/sommelier-compositor.cc:983-1015 | a new surface has no buffers and no contents |
| `HostSurface.Surface.DamageSurface` | sommelier/compositor/sommelier-compositor.cc:427-448 | refines the damage step |
| `HostSurface.Surface.DamageBuffer` | sommelier/compositor/sommelier-compositor.cc:459-478 | refines the buffer damage step |
| `HostSurface.Surface.HandOver` | sommelier/compositor/sommelier-compositor.cc:715-716 | the current buffer moves to the front of the busy list and nothing else changes |
| `HostSurface.Surface.Commit` | sommelier/compositor/sommelier-compositor.cc:668-717 | refines the commit step, writing only the current buffer's memory |
| `HostSurface.Surface.Release` | sommelier/compositor/sommelier-compositor.cc:97-106 | refines the release step, from either list |
| `HostSurface.Surface.AllocateBuffer` | sommelier/compositor/sommelier-compositor.cc:209-228 | a new buffer, wholly damaged, becomes released and current |
| `HostSurface.Surface.Attach` | sommelier/compositor/sommelier-compositor.cc:118-228 | refines the attach step for shm, non-shm and null buffers |
| `MmapRefs.StepKeeps` | sommelier/compositor/sommelier-mmap.cc:91-173 | every event keeps count, mapped state and owner of every mapping |
| `MmapRefs.RefcountConservation` | sommelier/compositor/sommelier-mmap.cc:150-173 | in every run the count is the live owning buffer plus the surfaces that hold the mapping, and it is mapped iff that is positive |
| `MmapRefs.TablesInEveryRun` | sommelier/compositor/sommelier-compositor.cc:147-173 | in every run the events alone say which buffers and surfaces live, and what each surface holds: what was attached last, until it is committed |
| `MmapRefs.CountFromEvents` | sommelier/compositor/sommelier-mmap.cc:150-173 | so they say how often a mapping is referenced and when it is unmapped |
| `MmapRefs.AttachedStaysMapped` | sommelier/compositor/sommelier-compositor.cc:147-173 | attached memory is still mapped at the commit, whatever was destroyed after the attach |
| `MmapRefs.ReleaseReachesLiveBuffer` | sommelier/compositor/sommelier-compositor.cc:803-810 | a commit releases the buffer whose contents it took exactly if there are contents and that buffer still exists |
| `MmapRefs.Registry.MmapRef` | sommelier/compositor/sommelier-mmap.cc:91-95 | adds one reference to one mapping |
| `MmapRefs.Registry.MmapUnref` | sommelier/compositor/sommelier-mmap.cc:150-173 | takes one reference and unmaps at the last |
| `MmapRefs.Registry.CreateBuffer` | sommelier/compositor/sommelier-shm.cc:146-164 | the new buffer owns the first reference |
| `MmapRefs.Registry.Attach` | sommelier/compositor/sommelier-compositor.cc:147-173 | the old contents are given up and the new ones referenced |
| `MmapRefs.Registry.Commit` | sommelier/compositor/sommelier-compositor.cc:803-810 | the release event, then the reference is given up |
| `MmapRefs.Registry.DestroyBuffer` | sommelier/sommelier.cc:277-294 | the owner forgets the mapping and gives up its reference |
| `MmapRefs.Registry.DestroySurface` | sommelier/compositor/sommelier-compositor.cc:854-855 | the surface gives up its reference |
| `SelectionSend.ReadableKeeps` | sommelier/sommelier.cc:1989-2053 | each read keeps the byte stream, the acknowledgement discipline and the shape of the property log |
| `SelectionSend.DeletedKeeps` | sommelier/sommelier.cc:2340-2371 | each deletion by the requestor keeps them too |
| `SelectionSend.StreamIntegrity` | sommelier/sommelier.cc:1977-2053 | in every run the data properties followed by the buffer are the bytes read; no property or buffer exceeds 64 KiB; nothing follows a zero-length one |
| `SelectionSend.AckDisciplineNoStall` | sommelier/sommelier.cc:1977-1985 | no property is written over an unacknowledged one, and an open source is being read or will be resumed by the pending deletion |
| `SelectionSend.ReleaseComplete` | sommelier/sommelier.cc:2363-2371 | a finished transfer has written all bytes read: one property below 64 KiB, else INCR first and one or two zero-length ones at the end |
| `SelectionSend.DrainsAfterEof` | sommelier/sommelier.cc:2340-2371 | once the source has ended, at most two deletions finish the transfer |
| `SelectionSend.TwoZerosIff` | sommelier/sommelier.cc:2034-2048 | two zero-length properties are written iff the end of file finds nothing buffered and nothing unacknowledged, else one |
| `SelectionSend.NotifiedOnce` | sommelier/sommelier.cc:2014-2045 | in every run the requestor is told once that the transfer is accepted, with the announcement or the complete data, and of a refusal after a read error |
| `SelectionSend.ClosedIff` | sommelier/sommelier.cc:1989-2053 | in every run the source is closed by its end or by a read error, and by nothing else |
| `SelectionSend.AcksInEveryRun` | sommelier/sommelier.cc:2340-2371 | in every run each deletion while an incremental transfer is waited for, and nothing else, counts as an acknowledgement |
| `SelectionSend.Context.constructor` | sommelier/sommelier.cc:2553-2616 | a transfer starts with an open source that is being read |
| `SelectionSend.Context.SendSelectionData` | sommelier/sommelier.cc:1977-1985 | writes the whole buffer as one property and waits for its deletion |
| `SelectionSend.Context.ReadInto` | sommelier/sommelier.cc:1998-2021 | bytes read land behind those buffered, inside the 64 KiB block |
| `SelectionSend.Context.HandleReadable` | sommelier/sommelier.cc:1989-2053 | refines the read step, including errors and end of file |
| `SelectionSend.Context.HandleDeleted` | sommelier/sommelier.cc:2340-2371 | refines the deletion step |
| `SelectionReceive.StepKeeps` | sommelier/sommelier.cc:1862-1958 | every event keeps the books of every fd, and every event that does no harm keeps its byte stream |
| `SelectionReceive.ByteIntegrity` | sommelier/sommelier.cc:1904-1941 | in every run without harm, under any partial writes, an fd gets a prefix of the data received for it and nothing else, and all that its owner sent if it is closed without a write error; no assertion fails |
| `SelectionReceive.EveryFdAccounted` | sommelier/sommelier.cc:1889-1902 | in every run every fd is waiting, active or closed and only one of these, begun and closed at most once; requests wait only behind an active send; the write source is armed iff a value is in flight |
| `SelectionQueue.NewestServedNext` | sommelier/sommelier.cc:1889-1941 | in every run the active fd is closed exactly by a failed write, a complete one with no more to follow, or the end mark; then the newest waiting request whose atom is known is served, and only newer ones without are closed unserved |
| `SelectionQueue.PendingIsWaiting` | sommelier/sommelier.cc:2378-2401 | in every run the list holds exactly the requests that are neither active nor closed, newest first |
| `SelectionQueue.ClosedWasServed` | sommelier/sommelier.cc:1862-1902 | in every run a request whose atom is known is closed only after it was served, and no other is ever served |
| `SelectionQueue.BytesAsHanded` | sommelier/sommelier.cc:1904-1958 | in every run the data received for an fd is what the events handed over while it was active, and as much was written as its pipe took |
| `SelectionQueue.OutcomesInEveryRun` | sommelier/sommelier.cc:1904-1941 | in every run the fds whose write failed, and those whose owner ended the transfer, are those of the events |
| `SelectionReceive.IntegrityIff` | sommelier/sommelier.cc:1943-1958 | in every run all streams are right, no announcement is written and all assertions hold throughout iff no value is taken while another is in flight and none that announces a transfer while the flag is set, other than by a write that fails, and no value of a transfer that goes on is completed after the flag was cleared |
| `SelectionReceive.FlagIsLastNotify` | sommelier/sommelier.cc:2503-2521 | in every run the incremental flag is what the last SelectionNotify, change of owner or transfer in the other direction made it, for whichever fd that was |
| `SelectionReceive.StaleIncrementalFlag` | sommelier/sommelier.cc:2315-2339 | after any run that leaves the flag set with no send active, the announcement for the next fd is written to it, although no data was received for it |
| `SelectionReceive.ValueWrittenTwice` | sommelier/sommelier.cc:2315-2339 | after any run that leaves the flag set, a one-shot value written in part is written again from its start at SelectionNotify, and the fd closed as complete; if it does not all fit, an assertion fails |
| `SelectionReceive.IncrementalLeavesFlag` | sommelier/sommelier.cc:2326-2336 | a finished incremental transfer is such a run |
| `SelectionReceive.TransferInFlight` | sommelier/sommelier.cc:2315-2339 | a run with a value of an incremental transfer in flight |
| `SelectionReceive.OwnerChangeCutsShort` | sommelier/sommelier.cc:2661-2691 | after any such run, a change of owner makes the fd close as complete when the value is written, although its owner had not ended the transfer |
| `SelectionReceive.OwnerChangeStalls` | sommelier/sommelier.cc:2661-2691 | after a change of owner between two values nothing is written and no fd is closed, whatever requests and values follow, until a conversion is answered or a transfer the other way is announced |
| `SelectionReceive.Context.BeginSend` | sommelier/sommelier.cc:1862-1887 | the fd becomes active, or is closed when its atom is unknown |
| `SelectionReceive.Context.ProcessPendingList` | sommelier/sommelier.cc:1889-1902 | newest request first until one begins, closing the others; it terminates |
| `SelectionReceive.Context.HandleWritable` | sommelier/sommelier.cc:1904-1941 | refines the write step: error, partial and complete writes |
| `SelectionReceive.Context.WriteSelectionProperty` | sommelier/sommelier.cc:1943-1958 | refines a new value with its first write, also over one in flight; the assertion fails exactly when the write source is already armed |
| `SelectionReceive.Context.DataSourceSend` | sommelier/sommelier.cc:2378-2401 | begins at once or queues in front |
| `SelectionReceive.Context.GetSelectionData` | sommelier/sommelier.cc:2503-2521 | sets the incremental flag, or writes the value |
| `SelectionReceive.Context.PropertyNewValue` | sommelier/sommelier.cc:2315-2339 | refines the property step, for data and announcements alike; an empty value ends the send |
| `SelectionReceive.Context.XfixesSelectionNotify` | sommelier/sommelier.cc:2661-2691 | refines the change of owner to another X client |
| `SelectionReceive.Context.SelectionRequested` | sommelier/sommelier.cc:2023-2024 | refines the change of the shared flag by a transfer in the other direction |
| `WindowScale.AxisRoundTrip` | sommelier/sommelier-transform.cc:100-134 | with the rounding flag chosen as the code chooses it, one axis maps back exactly, for any multiplication and division with relative error 2^-53 |
| `WindowScale.WindowScaleRoundTrip` | sommelier/sommelier-transform.cc:289-348 | after try_window_scale the logical size maps back to exactly the pixel size, for all int32 sizes and all scale factors with positive logical sizes |
| `WindowScale.LogicalSizeIs` | sommelier/sommelier-transform.cc:289-330 | the logical size is, axis by axis, the pixel size over the scale of the output, or of the context without one |
| `WindowScale.OwnScaleIff` | sommelier/sommelier-transform.cc:289-348 | under direct scaling a window gets a scale of its own iff its logical size is positive and does not map back under the given one; it is then pixels over logical size, and an axis is rounded iff its cycle is not exact; otherwise nothing is left of an earlier one |
| `WindowScale.OwnScaleApplies` | sommelier/sommelier-transform.cc:10-26 | an own scale goes before all others, in both directions, with a rounding flag to each axis |
| `WindowScale.PlainScaleApplies` | sommelier/sommelier-transform.cc:10-26 | without direct scaling the one scale of the context applies to both axes, and no window gets its own |
| `WindowScale.ExactIsAccurate` | sommelier/sommelier-transform.cc:100-134 | exact real arithmetic is a case of the above |
| `WindowScale.DoublesAccurate` | sommelier/sommelier-transform.cc:100-134 | binary64 with rounding to nearest is a case of the above |
| `WindowScale.ExactNeedsNoRounding` | sommelier/sommelier-transform.cc:332-347 | under exact arithmetic the rounding flags stay clear |
| `WindowScale.FlagIsNeeded` | sommelier/sommelier-transform.cc:332-347 | in doubles a window of 61 pixels at scale 8 needs the flag: without it 7 maps back to 60 |
| `WindowScale.CycleExactIff` | sommelier/sommelier-transform.cc:332-347 | outside the rounding error around a scale of one half, pixels to logical and back under the window's own scale is exact iff the recomputed logical size is the cached one or the scale is below one half, for any multiplication and division with relative error 2^-53 |
| `WindowScale.NearHalfIff` | sommelier/sommelier-transform.cc:332-347 | for sizes with a product of at most 2^50 that leaves out a scale of exactly one half and nothing else |
| `WindowScale.HalfDependsOnMachine` | sommelier/sommelier-transform.cc:332-347 | at one half, two machines within the error bound differ |
| `WindowScale.CycleInDoubles` | sommelier/sommelier-transform.cc:332-347 | in doubles, for all sizes with a product of at most 2^50, the condition is exact without exception |
| `WindowScale.CycleCanFail` | sommelier/sommelier-transform.cc:332-347 | in doubles a window of 9 pixels at scale 1.25 recomputes 6 for 7, and its cycle ends at 8 with the rounding flag |
| `WindowScale.SurfaceScale.Reset` | sommelier/sommelier-transform.cc:350-355 | clears the window's own scale and flags |
| `WindowScale.SurfaceScale.TryScale` | sommelier/sommelier-transform.cc:289-348 | refines the computation and ends in the round trip |
| `ConfigureAcks.StepKeeps` | sommelier/sommelier-window.cc:132-210 | every event keeps acknowledged and waiting serials an ordered pick of the received ones that ends in the newest |
| `ConfigureAcks.AcksInOrder` | sommelier/sommelier-window.cc:132-167 | in every run the acknowledged serials are received ones at strictly increasing positions |
| `ConfigureAcks.NewestIsHeld` | sommelier/sommelier-window.cc:189-210 | the newest serial is acknowledged, pending or next |
| `ConfigureAcks.AttachAcksAllItCan` | sommelier/compositor/sommelier-compositor.cc:377-384 | after an attach everything is acknowledged or the managed window still differs from the contents |
| `ConfigureAcks.RequestAcksEverything` | sommelier/sommelier.cc:1505-1522 | a configure request of a toplevel acknowledges both waiting serials in order |
| `ConfigureAcks.EveryAckMatches` | sommelier/sommelier-window.cc:132-167 | in every run of a window in one role each acknowledgement sent for contents, at an attach or inside the configure, was for contents of the window's size and of the size its configure asked for |
| `ConfigureAcks.AckMeansMatch` | sommelier/sommelier-window.cc:146-161 | for each one of them in a managed window: a configure that asks for a size is acknowledged for contents only if they have exactly that size |
| `ConfigureAcks.ConfigureTakesUp` | sommelier/sommelier-window.cc:55-210 | a serial with nothing pending: the window takes the size asked for, without a border, and the position if it is ours; the serial is acknowledged if the contents fit that window, else pending |
| `ConfigureAcks.AttachTakesUp` | sommelier/sommelier-window.cc:132-167 | contents that fit: the pending serial is acknowledged with its geometry, and one that waits behind it is taken up the same way; the loop comes to no more than these two |
| `ConfigureAcks.AskedInEveryRun` | sommelier/sommelier-window.cc:189-312 | in every run of a managed window, what it is asked for is the last geometry, the last states and the last serial since that was last taken |
| `ConfigureAcks.EveryAckFromEvents` | sommelier/sommelier-window.cc:55-312 | in every run of a managed window each acknowledgement sent for contents, and the pending configure, carries the serial and the geometry that the events asked for, since the one before was taken, when it was taken up |
| `ConfigureAcks.GeometryApplied` | sommelier/sommelier-window.cc:189-312 | after every run with nothing pending, a geometry and its serial are applied at once, and acknowledged iff the surface has no contents or contents of that size |
| `ConfigureAcks.GeometryWaits` | sommelier/sommelier-window.cc:132-312 | with a serial pending they wait for contents that fit the window as it is, which then takes the geometry |
| `ConfigureAcks.WaitingGeometry` | sommelier/sommelier-window.cc:189-312 | while a serial waits, whatever the events: the geometry applied and acknowledged is the last one asked for, and that is the one that came with the serial iff no other came in between |
| `ConfigureAcks.OvertakenGeometry` | sommelier/sommelier-window.cc:236-272 | a geometry that comes after the waiting serial replaces the one before it |
| `ConfigureAcks.RequestSets` | sommelier/sommelier.cc:1505-1561 | a request of the X client sets the geometry of a managed window and drops its border; of a toplevel it acknowledges all that waits, of others nothing |
| `ConfigureAcks.ReceivedInEveryRun` | sommelier/sommelier-window.cc:189-210 | in every run the serials received are those of the configure events |
| `ConfigureAcks.NoOtherAcks` | sommelier/sommelier-window.cc:132-210 | without requests of the X client no serial is acknowledged in another way |
| `ConfigureAcks.Window.Configure` | sommelier/sommelier-window.cc:55-110 | next becomes pending and its geometry is applied; every caller meets both assertions |
| `ConfigureAcks.Window.ProcessPending` | sommelier/sommelier-window.cc:132-167 | acknowledges iff a serial waits and the contents match, then moves on to the next |
| `ConfigureAcks.Window.AttachContents` | sommelier/compositor/sommelier-compositor.cc:377-384 | the loop terminates and acknowledges all it can |
| `ConfigureAcks.Window.SurfaceConfigured` | sommelier/sommelier-window.cc:189-210 | refines the configure step |
| `ConfigureAcks.Window.ToplevelConfigured` | sommelier/sommelier-window.cc:215-312 | refines the step that records geometry and state count in next |
| `ConfigureAcks.Window.HandleConfigureRequest` | sommelier/sommelier.cc:1505-1561 | acknowledges both, then takes the requested geometry and drops the border |
| `BitSets.InsertAdds` | src/util/bitvec.rs:25-28 | or-ing the shifted bit into its 64-bit block adds exactly one index |
| `BitSets.GrownSame` | src/util/bitvec.rs:71-76 | growing the vector with zero blocks changes no membership |
| `BitSets.RemoveTakes` | src/util/bitvec.rs:31-36 | and-ing with the complement of the shifted bit takes away exactly one index |
| `BitSets.NothingBeyond` | src/util/bitvec.rs:60-66 | no index behind the stored blocks is in the set |
| `BitSets.BitSet.Clear` | src/util/bitvec.rs:20-22 | empties the set |
| `BitSets.BitSet.Insert` | src/util/bitvec.rs:25-28 | the set gains the index and no other |
| `BitSets.BitSet.Remove` | src/util/bitvec.rs:31-36 | the set loses the index and no other |
| `BitSets.BitSet.Get` | src/util/bitvec.rs:39-45 | tells membership |
| `OverlaySpec.ReadSectorsIs` | src/disk/memory.rs:53-63 | a read succeeds iff every sector can be fetched, and returns them in order |
| `OverlaySpec.IntendedTestIsCorrect` | src/disk/memory.rs:47-65 | with the intended index the shortcut changes a result iff the read is empty and starts behind the image |
| `OverlaySpec.ReadCorrectIff` | src/disk/memory.rs:47-65 | the read as coded is right for every overlay contents iff a condition on the request and the set of written sectors holds |
| `OverlaySpec.UnsafeIsWrong` | src/disk/memory.rs:49-51 | for every unsafe request there are overlay contents that it returns wrongly |
| `OverlaySpec.LastWriteIsNewest` | src/disk/memory.rs:25-45 | the reference lookup is the newest covering write, None iff there is none |
| `OverlaySpec.SafeReadAfterWrites` | src/disk/memory.rs:25-65 | after any writes a safe read returns for each sector the last data written, else the base image, and fails iff a sector is neither |
| `OverlaySpec.StaleReadExample` | src/disk/memory.rs:49-51 | a sector written once and read alone comes back as the base image |
| `DiskImage.WriteAtSector` | src/disk/memory.rs:25-45 | a write of whole sectors replaces exactly those sectors |
| `DiskImage.BaseRead` | src/disk/raw.rs:87-132 | a read of the image succeeds iff it starts and ends on the disk |
| `DiskImage.BaseFilled` | src/disk/raw.rs:123-132 | the bytes read at the seek position are the requested sectors |
| `DiskImage.BaseWritten` | src/disk/raw.rs:98-114 | a write that starts on the disk is read back sector by sector, and the disk then ends where it did or behind the write |
| `DiskImage.MemoryOverlay.WriteSectors` | src/disk/memory.rs:25-45 | memory file and bit set hold the history with this write added |
| `DiskImage.MemoryOverlay.ReadSingleSector` | src/disk/memory.rs:67-75 | puts the last data written in place |
| `DiskImage.MemoryOverlay.NoneOfFirst` | src/disk/memory.rs:49 | the shortcut test as coded |
| `DiskImage.MemoryOverlay.ReadOne` | src/disk/memory.rs:53-63 | one sector from the overlay or the disk |
| `DiskImage.MemoryOverlay.ReadEach` | src/disk/memory.rs:53-63 | the loop fills the buffer with the reference read and touches nothing else |
| `DiskImage.MemoryOverlay.ReadSectors` | src/disk/memory.rs:47-65 | the buffer holds the read as coded |
| `DiskImage.RawDiskImage.Open` | src/disk/raw.rs:51-73 | each failure and what it leaves behind; an overlay image gets an empty overlay, and only a read-write image can be written |
| `DiskImage.RawDiskImage.ReadSectors` | src/disk/raw.rs:116-132 | takes the overlay out and puts it back; errors and results of both paths, also on an image that a write made longer than it was measured |
| `DiskImage.RawDiskImage.WriteSectors` | src/disk/raw.rs:98-114 | the image file never changes unless it was opened read-write; with an overlay the write goes there, otherwise the file has the write, which reads back, or the error; the measured size stays right iff the write ends within it |
| `ShmMapper.RoundToPage` | src/io/shm_mapper.rs:210-213 | the least page multiple that holds the size |
| `ShmMapper.RefusedRegisterRestores` | src/io/shm_mapper.rs:216-222 | a registration that KVM refuses leaves slots and ranges as they were |
| `ShmMapper.StepKeeps` | src/io/shm_mapper.rs:208-274 | every registration and removal keeps the accounts of slots and ranges |
| `ShmMapper.SlotAccounting` | src/io/shm_mapper.rs:208-274 | in every run the occupied slots are the RAM slots and the mapped ones, at least those if KVM refused a removal; RAM slots are never mapped |
| `ShmMapper.RangeAccounting` | src/io/shm_mapper.rs:245-259 | with all removals accepted the allocator holds exactly the mapped ranges |
| `ShmMapper.MappedRangesDisjoint` | src/io/shm_mapper.rs:208-230 | mapped ranges are whole pages and pairwise disjoint in every run |
| `ShmMapper.MappedAsRegistered` | src/io/shm_mapper.rs:208-274 | in every run the slots that are mapped, and their ranges, are those that the events registered at the least free slot and did not unregister |
| `ShmMapper.RangesAsRegistered` | src/io/shm_mapper.rs:208-274 | and the allocator holds their ranges |
| `ShmMapper.RegisteredSlot` | src/io/shm_mapper.rs:208-230 | an accepted registration maps its range, which holds the size in whole pages, at a free slot above RAM |
| `ShmMapper.StaysMapped` | src/io/shm_mapper.rs:208-259 | a mapping stays at its slot until that is unregistered |
| `ShmMapper.RegisterUnregister` | src/io/shm_mapper.rs:208-259 | registering and unregistering again is no change |
| `ShmMapper.DeviceSharedMemory.constructor` | src/io/shm_mapper.rs:158-172 | the RAM slots are taken from the start |
| `ShmMapper.DeviceSharedMemory.AllocateSlot` | src/io/shm_mapper.rs:261-269 | the search terminates with the least free slot |
| `ShmMapper.DeviceSharedMemory.Register` | src/io/shm_mapper.rs:208-230 | refines the registration step and returns its slot, which was free and now maps the range |
| `ShmMapper.DeviceSharedMemory.FreeRangeAndSlot` | src/io/shm_mapper.rs:254-274 | gives back one range and one slot |
| `ShmMapper.DeviceSharedMemory.Unregister` | src/io/shm_mapper.rs:232-243 | refines the removal step |
| `IoBus.GetDeviceIsTheCoveringOne` | src/io/bus.rs:76-84 | the lookup gives the device and offset of the covering range, which is unique |
| `IoBus.NoDeviceMeansNoCover` | src/io/bus.rs:76-84 | the lookup fails iff no range covers the address |
| `IoBus.AcceptsIff` | src/io/bus.rs:86-106 | without wrap-around the checks accept exactly the non-empty ranges that overlap nothing |
| `IoBus.WrappedAccepts` | src/io/bus.rs:100-106 | a range that wraps around is accepted iff no device covers its base |
| `IoBus.VerdictRightIff` | src/io/bus.rs:86-106 | for all 64-bit arguments, the exact condition under which the verdict is right |
| `IoBus.WrappedOverlapExample` | src/io/bus.rs:100-106 | an overlapping insertion that succeeds |
| `IoBus.KeyIsNew` | src/io/bus.rs:108-110 | an accepted key is new, so the last Overlap is unreachable |
| `IoBus.InsertKeepsRanges` | src/io/bus.rs:86-113 | an accepted insertion keeps all ranges disjoint |
| `IoBus.InsertRoutes` | src/io/bus.rs:76-113 | after it every address goes to the new device inside its range and as before outside |
| `IoBus.Bus.FirstBefore` | src/io/bus.rs:66-73 | the reverse search finds the last range that starts at or before the address |
| `IoBus.Bus.Lookup` | src/io/bus.rs:76-84 | refines the lookup |
| `IoBus.Bus.Insert` | src/io/bus.rs:86-113 | refused iff empty or overlapping (without wrap-around); a refusal changes nothing |
| `UartModel.StepKeeps` | src/devices/serial.rs:125-293 | every register access keeps FIFOs, status, control and line consistent |
| `UartModel.StatusInEveryRun` | src/devices/serial.rs:125-200 | from reset, after any accesses, the status register reads as both empty bits, and data-ready iff bytes are unread; nothing waits for transmission |
| `UartModel.LineInEveryRun` | src/devices/serial.rs:133-172 | set_irq_line calls alternate, a raise first, and the line is high iff an enabled cause holds |
| `UartModel.LoopbackIsFifo` | src/devices/serial.rs:180-187 | between clears, accepted bytes are the bytes read followed by the unread ones, in order; a byte is accepted while fewer than 64 were since the FIFO was last empty |
| `UartModel.TransmitsEverything` | src/devices/serial.rs:189-200 | standard output gets exactly the transmitted bytes, in order |
| `UartModel.IdentificationReadsZero` | src/devices/serial.rs:250-252 | in every run the identification register reads as zero |
| `UartModel.LineControlReadsBackIff` | src/devices/serial.rs:133-146 | a line control value reads back iff it has neither bit taken for a FIFO clear |
| `UartModel.ShadowInEveryRun` | src/devices/serial.rs:202-231 | in every run the control, divisor, enable and scratch registers hold what the driver's own writes say |
| `UartModel.ReadsBackInEveryRun` | src/devices/serial.rs:233-272 | and reads return them, the divisor through its latch |
| `UartModel.ModemStatusInEveryRun` | src/devices/serial.rs:262-272 | in every run the modem status reads as carrier detect, data set ready and clear to send; past the last register reads are zero |
| `UartModel.NoInterruptWithoutLatch` | src/devices/serial.rs:207-213 | in every run that never opens the divisor latch the interrupt line is never raised, whatever is written to the enable register |
| `SerialDevices.SerialDevice.constructor` | src/devices/serial.rs:315-337 | the reset state |
| `SerialDevices.SerialDevice.Flush` | src/devices/serial.rs:125-131 | refines the flush |
| `SerialDevices.SerialDevice.Drive` | src/devices/serial.rs:148-167 | refines the interrupt part of update_irq |
| `SerialDevices.SerialDevice.Update` | src/devices/serial.rs:133-172 | refines update_irq |
| `SerialDevices.SerialDevice.Transmit` | src/devices/serial.rs:174-200 | refines tx, with every array access inside the FIFO |
| `SerialDevices.SerialDevice.Receive` | src/devices/serial.rs:275-293 | refines rx |
| `SerialDevices.SerialDevice.Write` | src/devices/serial.rs:202-231 | refines serial_out |
| `SerialDevices.SerialDevice.Read` | src/devices/serial.rs:233-272 | refines serial_in |
| `NetRx.StepKeeps` | src/devices/virtio_net.rs:193-272 | every tap or queue event conserves frames and keeps chains whole |
| `NetRx.FramesConserved` | src/devices/virtio_net.rs:193-272 | in every run the frames delivered, then the pending one, are the non-empty frames read, in order |
| `NetRx.FramesAreWhole` | src/devices/virtio_net.rs:197-207 | every chain holds whole frames back to back, within its capacity |
| `NetRx.SharedChain` | src/devices/virtio_net.rs:245-259 | two frames that fit a chain together are put into it together |
| `NetRx.OneEachIff` | src/devices/virtio_net.rs:245-259 | over all runs with frames of at least m bytes and chains of bounded room, no chain holds two frames iff the room is below twice m |
| `NetRx.FrameWaitsOnlyForRoom` | src/devices/virtio_net.rs:230-260 | an event that was offered a chain leaves a frame pending only if the newest chain has no room for it |
| `NetRx.TapReads` | src/devices/virtio_net.rs:230-260 | a tap event with a chain on offer takes all frames the tap has, in order, unless one is left waiting |
| `NetRx.TapTakes` | src/devices/virtio_net.rs:230-260 | it takes the first chains of the queue, in order |
| `NetRx.TapLeaves` | src/devices/virtio_net.rs:230-260 | it leaves the chains used before alone |
| `NetRx.QueueTakes` | src/devices/virtio_net.rs:262-272 | a queue event without a frame waiting takes nothing from tap or queue; with one it takes what a tap event would |
| `NetRx.PolledInEveryRun` | src/devices/virtio_net.rs:223-272 | in every run the tap is polled as the queue events, the chains missed and the answers of epoll say |
| `NetRx.QueueResumes` | src/devices/virtio_net.rs:262-272 | after every run, once the guest offers a chain the tap is polled, if epoll accepts it: reception does not stall |
| `NetRx.StopsOnlyWithoutChains` | src/devices/virtio_net.rs:223-228 | in every run polling stops only at an event that found no chain |
| `NetRx.VirtioNetDevice.ReceiveFrame` | src/devices/virtio_net.rs:197-207 | writes the pending frame iff it fits, else changes nothing |
| `NetRx.VirtioNetDevice.TapRead` | src/devices/virtio_net.rs:209-221 | a frame read becomes pending; no data and errors change nothing |
| `NetRx.VirtioNetDevice.HandleRxTap` | src/devices/virtio_net.rs:230-260 | refines the tap event |
| `NetRx.VirtioNetDevice.DrainTap` | src/devices/virtio_net.rs:245-259 | the loop refines draining the tap over the chains on offer |
| `NetRx.VirtioNetDevice.HandleRxQueue` | src/devices/virtio_net.rs:262-272 | refines the queue event |
| `NetlinkFormat.WalkEncodedIff` | src/system/netlink.rs:437-445 | a walk over encoded attributes gives back types and payloads iff every length fits 16 bits |
| `NetlinkFormat.MessageRoundTripIff` | src/system/netlink.rs:263-351 | a message is decoded to its header fields, family header and attributes iff its size fits 32 bits and each attribute's 16 |
| `NetlinkFormat.AttributeAt` | src/system/netlink.rs:437-445 | attribute k and what follows lie at its offset |
| `NetlinkFormat.AttributesAligned` | src/system/netlink.rs:406-409 | message length and every attribute offset are multiples of four |
| `NetlinkFormat.NestedRoundTrip` | src/system/netlink.rs:306-316 | a second walk gives back the children of a nested attribute iff they fit, under a type with the nested bit |
| `NetlinkFormat.BuiltRoundTripIff` | src/system/netlink.rs:263-351 | for any attributes a caller can append the message is read back iff no nested length is cut off |
| `NetlinkFormat.OversizedNestedExample` | src/system/netlink.rs:306-316 | such an attribute exists |
| `Netlink.Buffer.Align` | src/system/netlink.rs:406-409 | zero padding to a multiple of four |
| `Netlink.Buffer.AppendAttr` | src/system/netlink.rs:437-445 | appends the encoded attribute |
| `Netlink.BuildNested` | src/system/netlink.rs:306-316 | the nested buffer ends as the encoded nested attribute |
| `Netlink.NetlinkMessage.constructor` | src/system/netlink.rs:267-273 | the header with its fields and length zero |
| `Netlink.NetlinkMessage.WithFamily` | src/system/netlink.rs:279-304 | the family header follows |
| `Netlink.NetlinkMessage.AppendAttr` | src/system/netlink.rs:328-331 | the message gains the attribute |
| `Netlink.NetlinkMessage.WithNested` | src/system/netlink.rs:306-316 | the message gains the nested attribute |
| `Netlink.NetlinkMessage.Done` | src/system/netlink.rs:338-350 | the finished bytes are the encoding of what was added |
| `Netlink.ReplyOutcome` | src/system/netlink.rs:223-238 | an error message is an acknowledgement iff its code is zero, else the signed code is reported (section 2.3.2.2 of RFC 3549) |
| `Netlink.ProcessResponse` | src/system/netlink.rs:212-238 | every received byte string gets its outcome, short and foreign ones included |
| `CommandLine.WordsOfJoin` | src/vm/kernel_cmdline.rs:49-55 | words without whitespace, pushed one after the other, are split again as they were |
| `CommandLine.CleanWord` | src/vm/kernel_cmdline.rs:57-63 | a clean setting prints as one word that parses as the setting |
| `CommandLine.ParsedIsClean` | ph-init/src/cmdline.rs:23-36 | whatever the line, the parser yields only keys without whitespace and `=` and values without whitespace or a leading `=` |
| `CommandLine.RoundTripIff` | ph-init/src/cmdline.rs:23-36 | after every push the parsed line gives each key the value of its last push and no other keys, iff every push is clean |
| `CommandLine.KeyValText` | src/vm/kernel_cmdline.rs:49-63 | a text with an equals sign, pushed whole, means the same as the key pushed with the value |
| `CommandLine.DefaultLineIsFaithful` | src/vm/kernel_cmdline.rs:6-31 | the pushes of the default line are all clean, so the guest parses it as it was meant |
| `CommandLine.LeadingEqualsLost` | ph-init/src/cmdline.rs:27-30 | what any value without whitespace comes back as |
| `CommandLine.LookupLastPush` | ph-init/src/cmdline.rs:42-48 | a lookup gives the value of the last push of its key and is unaffected by pushes of others |
| `CommandLine.KernelCmdLine.Push` | src/vm/kernel_cmdline.rs:49-55 | the buffer is the print of the pushes so far |
| `CommandLine.KernelCmdLine.PushSetTrue` | src/vm/kernel_cmdline.rs:57-59 | the same for a flag set to 1 |
| `CommandLine.KernelCmdLine.PushSetVal` | src/vm/kernel_cmdline.rs:61-63 | the same for a key with a value |
| `CommandLine.ParseLine` | ph-init/src/cmdline.rs:23-36 | the loop builds the parsed map |

## Left out

- Shaped windows, DRM and dmabuf buffers, explicit fences and the second plane of NV12 in the surface model: shm buffers with one plane only.
- Viewports, fractional buffer scales and a buffer scale that changes between damage and commit: the scale of a run is a fixed integer.
- Regions are lists of rectangles; pixman's normal form is not modelled, only the pixels covered.
- SurfaceRuns.DamageInvariant: stated for a client whose honoured damage covers every pixel it changes; `ReliableIff` says which requests are honoured in every run.
- Surface runs whose client mapping does not hold its contents: `MappingHoldsCopyIff` says which do.
- PixelCopy.CopyRows: the rows of the output buffer do not overlap; `SharedStrideFits` derives that where it takes over the client's stride, and a dmabuf's stride comes from the channel.
- A double converted to int32 out of range is undefined in C++; the model takes INT32_MIN, as x86-64 does.
- Products of a rectangle edge and an integer scale are exact in a double in the range used; only `WindowScale` models rounding.
- HostSurface.Surface.Commit: forwarding to the host, window realization and the frame callbacks are not modelled.
- Unlinking a buffer from its list goes by position in the model and by link in the source.
- Conversion of targets and timestamps, which use the same property.
- SelectionSend.StreamIntegrity: one transfer to an X client per run, and its own incremental flag; the source shares the flag with the other direction, which `SelectionReceive` models.
- SelectionReceive.EveryFdAccounted: that an fd is eventually closed depends on the X client and is not stated.
- ConfigureAcks.Window.HandleConfigureRequest: the requested geometry is a parameter; value masks, `allow_resize` and the adjustment to the screen size are not modelled.
- Re-creation of an `xdg_surface` and the COMMIT_LOOP_FIX variant in `ConfigureAcks`; serials are non-zero.
- Input and output errors of the memory file and of reads of the image below its measured size; 64-bit overflow of sector offsets.
- The registers of the serial port are sets of one bits; the blocks of the bit vector are 64-bit words.
- WindowScale.CycleExactIff: scales within the rounding error of one half, where accurate machines differ (`HalfDependsOnMachine`); in doubles `CycleInDoubles` leaves out only sizes with a product above 2^50.
- The address allocator of the hypervisor is a parameter that hands out fresh, page-aligned ranges; DRM allocation is not modelled.
- Locking and dispatch of reads and writes to devices on the bus.
- Short writes of the serial port to standard output, which the source ignores.
- Guest memory errors while a frame is written to a chain that has room; the transmit queue of virtio-net.
- Fields inside the netlink family headers; sockets, sequence numbers and the interface index lookup.
- `split_whitespace` is modelled by the Unicode White_Space property; reading /proc/cmdline is not.
- Seat, shell, text input, tracing, gaming, virtgpu and virtwl channels, mounts and services: mostly one-to-one forwarding or host calls.
