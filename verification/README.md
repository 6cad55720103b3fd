# SwiftShader: verified models

SwiftShader renders Direct3D and OpenGL on the processor. This project models the
parts of it whose correctness does not rest on the code generator, and proves what
they promise. `dafny verify dfyconfig.toml` checks everything.

| files | what they model |
|---|---|
| ResourceLock, ResourceSystem, ResourceInvariant, ResourceTheorems, ResourceMisuse | locking and asynchronous deletion of shared buffers: the critical sections as methods; any number of threads stepping through the spin lock, the event and the sections; what every step keeps, what holds in every run, and when a client that breaks its promises does harm |
| ClipGeometry, ClipPass, Clipper, PolygonBuffer | the homogeneous polygon clipper: geometry of one edge, one pass, the twelve planes with their flags, and the index-linked storage worked on in place |
| ClipCorner, ClipSharp | cutting off corners one after another, and polygons that show the bounds of growth to be sharp |
| ClipCallers, ClipLines | the polygons the renderer clips, and the exact number of passes for which their storage is enough |
| Matrix | the adjugate inverse and the transformation of planes |
| Crc, CrcValues | the bitwise and the table-driven checksum, at every width; the same on machine words, and the values published for the standards |
| CacheOrder, LruCache | the routine cache as a sequence, and as a circular array with key references and bind counts |
| ObjectLifetime, Bindings | two-counter object lifetimes across the binding slots of the device and of all its state blocks |
| ConstantTracking, ShaderConstants | high water marks for shader constants, from the device through the registers to the draw calls in flight |
| IniFormat, IniRoundTrip, Configurator | the configuration file, with the exact condition under which it survives being written and read |
| RelocationTable, SharedLibrary | the relocations and layout of an emitted shared library, with a decoder as specification |
| BlendState | the simplification of blend operations and the write early out |

Code that changes state is a class or method proved against functions on values;
the theorems about runs are lemmas about those functions. Points where the code and
its documentation, or a plain reading of it, differ:

- `crc.cpp` compares its reflection macros with TRUE and FALSE, which neither it nor
  `crc.h` defines; every theorem holds for both readings. Undefined names compare equal, so as it stands the
  code reflects, and its check of the digits 123456789 is 0x6F91, not the 0x29B1 that `crc.h`
  publishes; `PublishedIff` says exactly when it is. The width of the check is the
  width of the machine type, so the theorems are stated for every width from 8 bits.
- Reading back what `writeFile` wrote is not always the identity. `RoundTrip` gives the
  exact condition: no line breaks; value names free of `;`, `#`, `[` and `=` and either empty or
  starting with a printable character; values not ending in a carriage return; value
  names distinct within a section; and a section that repeats an earlier name empty.
- `sizeof(DOSheader) + AMD64 ? a : b` groups the sum into the condition. `HeadersFit` shows
  that the result rounds to the same page and file block as the intended size.
- A vertex texture set while a state block is recorded is ignored, because its sampler
  number is translated a second time; `VertexTexturesAreNotRecorded` states when.
- With `alphaBlendEnable` off, the separate alpha operation still has its requested value,
  but nothing uses it: `AlphaBlendActive` is false.
- `Polygon.hpp` provides sixteen buffered points, for up to twelve passes. `ClippedStaysIff`
  gives the exact need of a run; `PassesFitIff` and `LinePassesFitIff` give the number of
  enabled passes up to which every triangle, and every line, is within it: eight, and two.
- `destruct` relies on its callers. `TouchedIffCalling` says exactly when a call in flight
  would go on after the deletion, `LateLockTouches` is such a schedule, and the obligations in
  ResourceSystem, stated on entering a call, rule all of them out.
- The early out of `colorWriteActive` is safe but not complete; `MissedIff` lists what it
  does not recognise.
- The size of the export section counts a pointer for each different function, while four
  bytes are written for each one added; the directory counts the different ones. `Emit` and
  the lemmas beside it say when that fits and agrees.
- The setters of shader constants skip registers that do not exist but still raise the mark
  past them; `MarkStaysIff` says when.

Assumptions about clients, all stated as preconditions or as `Obliged` in
ResourceSystem:

- `destruct` is called once. A thread that enters `unlock`, or is in or enters any call once
  `destruct` is called, answers for a hold, and no call in flight of another thread drops
  holds of that accessor. Threads already counted as blocked need nothing. A hold may be
  handed from thread to thread between calls.
- A setter is given a live object or none; a stream number is below 16.
- In runs, constant writes and shader definitions stay within the registers.
- The storage given to `Clip` has room for the run.
- A library is emitted once, and every function with relocations has been added.
- Colours lie in the unit range.

## Model

| member | source | states |
|---|---|---|
| ResourceLock.Resource.ClaimSection | src/Common/Resource.cpp:34-55 | one evaluation of the acquire loop either counts the caller as blocked and sends it to wait, or takes the accessor and one more hold, exactly when nobody holds the resource or the holder is of the same accessor |
| ResourceLock.Resource.ReclaimSection | src/Common/Resource.cpp:43-53 | a woken caller leaves the blocked count and claims again inside one section |
| ResourceLock.Resource.RelinquishSection | src/Common/Resource.cpp:128-154 | the release loop drops every hold of one accessor and nothing of any other, and signals or deletes once, when the last hold goes |
| ResourceLock.Resource.ExchangeSection | src/Common/Resource.cpp:57-101 | relinquishing and claiming happen in one section; after a deletion nothing is claimed |
| ResourceLock.Resource.UnlockSection | src/Common/Resource.cpp:103-126 | dropping the last hold signals if anyone is blocked, else deletes an orphan |
| ResourceLock.Resource.DestructSection | src/Common/Resource.cpp:156-172 | an idle resource is deleted at once, any other is marked as orphaned |
| ResourceTheorems.ReachableInv | src/Common/Resource.cpp:34-172 | the invariant of the whole system of n threads holds after every schedule of read, exchange, section, store, wait and delete steps; clients are held to their obligations only where a call is entered |
| ResourceInvariant.StepKeepsRespected | src/Common/Resource.cpp:34-172 | what the clients promise on entering a call is still true at the section of that call, whatever other calls do meanwhile |
| ResourceTheorems.HolderMayEnter | src/Common/Resource.cpp:34-126 | the obligations leave room: a thread that answers for a hold may lock or unlock, also after destruct |
| ResourceTheorems.MutualExclusion | src/Common/MutexLock.hpp:27-112 | in every interleaving of the separate read, exchange and store of the spin lock at most one thread is inside a section |
| ResourceTheorems.AccessorExclusion | src/Common/Resource.cpp:34-154 | in every reachable state the count is the number of outstanding holds of the clients' own ledger, and two holds never differ in accessor |
| ResourceTheorems.NoLostWakeup | src/Common/Thread.hpp:167-189 | whenever nobody holds the resource and a thread is blocked, the event is signalled or a woken thread is on its way in |
| ResourceTheorems.BlockedCanProceed | src/Common/Resource.cpp:36-53 | from every such state with the lock free, some blocked thread obtains its hold by at most four steps of its own |
| ResourceTheorems.DeletionIsLast | src/Common/Resource.cpp:57-172 | a resource is deleted at most once; from the section that decides it there are no holds, nobody is blocked, every other thread is outside every call, and no entry meets the obligations |
| ResourceMisuse.TouchedIffCalling | src/Common/Resource.cpp:57-172 | for every schedule, obligations or not: a call in flight goes on to use the deleted resource if and only if, at the section that decides the deletion, some other thread is in a call and not on its way back from a wait |
| ResourceMisuse.ObligedNeverTouch | src/Common/Resource.cpp:57-172 | under the obligations that condition never arises |
| ResourceMisuse.LateLockTouches | src/Common/Resource.cpp:34-55 | a schedule of two threads in which it does: lock is entered without a hold, destruct runs to its end, and the first access of lock is still to come |
| ResourceMisuse.LateLockRefused | src/Common/Resource.cpp:156-172 | the obligations refuse that schedule where destruct is called |
| ResourceTheorems.OrphanIsDeleted | src/Common/Resource.cpp:115-120 | an orphan that nobody holds and nobody is blocked on is deleted or about to be |
| ResourceTheorems.AnswerByLedger | src/Common/Resource.cpp:34-172 | what every section answers, by what the clients hold: a claim waits exactly if somebody holds the resource for another accessor, and each outcome, signal, blocked count and orphan mark follows in every reachable state |
| ResourceTheorems.SignalWakesOne | src/Common/Thread.hpp:167-189 | one signal ends one wait |
| ResourceTheorems.NoneWokenWithoutRelease | src/Common/Resource.cpp:103-154 | in every schedule, no wait ends before somebody enters a call that may drop the last hold |
| ResourceTheorems.LockIsFree | src/Common/Resource.cpp:34-55 | before destruct is called the obligations let any idle thread lock at any time |
| ResourceTheorems.MayDestruct | src/Common/Resource.cpp:156-172 | destruct needs no hold |
| ResourceTheorems.MayRelinquish | src/Common/Resource.cpp:128-154 | an accessor may be relinquished while others unlock, if they hold nothing for it |
| ResourceTheorems.HolderMayHand | src/Common/Resource.cpp:103-126 | and let a holder hand on a hold when no call is in flight |
| ClipGeometry.CrossingOnPlane | src/Renderer/Clipper.cpp:364-372 | the point computed on a crossing edge lies exactly on the plane |
| ClipGeometry.CrossingIsBlend | src/Renderer/Clipper.cpp:364-372 | the point computed on a crossing edge is a point of the edge between its ends |
| ClipGeometry.BetweenSide | src/Renderer/Clipper.cpp:324-372 | a point of an edge whose ends are inside any half-space is inside it |
| ClipPass.OutputOnInputEdge | src/Renderer/Clipper.cpp:324-362 | every vertex a pass emits lies on an edge of its input, the wrap-around edge included |
| ClipPass.PassIsSound | src/Renderer/Clipper.cpp:324-362 | after a pass every vertex is inside its plane |
| ClipPass.PassKeepsInside | src/Renderer/Clipper.cpp:324-362 | a pass never moves a polygon outside a half-space it was in, so later passes do not undo earlier ones |
| ClipPass.InsideUnchanged | src/Renderer/Clipper.cpp:324-362 | a pass over a polygon inside its plane returns it unchanged |
| ClipPass.PassKeepsBends | src/Renderer/Clipper.cpp:324-362 | if every linear functional changes sign at most 2m times around the input, it does around the output |
| ClipPass.AnyPolygonBends | src/Renderer/Renderer.cpp:1404-1404 | a polygon of n vertices changes sign at most twice n / 2 times: triangles at most twice, the hexagons of lines at most six times |
| ClipPass.TriangleIsConvex | src/Renderer/Renderer.cpp:1404-1404 | a triangle, the polygon of setupSolidTriangle, changes sign at most twice |
| ClipCallers.PointSquareIsConvex | src/Renderer/Renderer.cpp:1802-1837 | so does the parallelogram of setupPoint |
| ClipCallers.LineHexagonBends | src/Renderer/Renderer.cpp:1676-1760 | the hexagon of setupLine changes sign at most six times, and its vertices are among the points its clip flags come from |
| ClipPass.PassGrowth | src/Renderer/Clipper.cpp:72-362 | a pass creates at most one point for each change of sign and adds at most one vertex for every two |
| ClipPass.BoundaryKept | src/Renderer/Clipper.cpp:324-362 | every point of the input cycle on the inner side of the plane is on the output cycle |
| Clipper.RunSound | src/Renderer/Clipper.cpp:30-70 | a run of passes that leaves a polygon leaves it inside every enabled plane and every half-space it was in |
| Clipper.ClippedGrowth | src/Renderer/Clipper.cpp:30-70 | k passes over a polygon with at most 2m sign changes create at most 2mk points, add at most mk vertices, and keep the bound |
| Clipper.ClippedStaysIff | src/Renderer/Clipper.cpp:341-353 | every store into the point buffer stays inside it if and only if the points created by the passes that are made fit into it |
| ClipCorner.CutOne | src/Renderer/Clipper.cpp:324-362 | a pass with one vertex outside and none on the plane puts the two crossings in the place of that vertex, also of the first one |
| ClipCorner.CutCorners | src/Renderer/Clipper.cpp:30-70 | from any polygon with a corner that leans between its neighbours, any number of further corners can be cut off, two points a pass |
| ClipCorner.BoundsAreSharp | src/Renderer/Clipper.cpp:72-362 | for every k there are k planes whose run over a triangle creates exactly 2k points and leaves 3 + k vertices |
| ClipSharp.DriverIsSharp | src/Renderer/Clipper.cpp:30-70 | for one to six user planes there is a triangle that is handed on and a choice of planes for which the driver makes all six frustum passes and these, and creates two points in each |
| ClipSharp.SharpFlags | src/Renderer/Renderer.cpp:1402-1408 | the renderer computes all six frustum flags for that triangle, whatever the draw call adds, and passes it to the clipper |
| ClipCallers.FewPassesFit | src/Renderer/Polygon.hpp:41-42 | how many enabled passes the storage of a polygon is enough for |
| ClipCallers.EightPassesFit | src/Renderer/Polygon.hpp:41-42 | up to eight for triangles and points |
| ClipCallers.TwoPassesFitLine | src/Renderer/Polygon.hpp:41-42 | up to two for lines |
| ClipCallers.PassesFitIff | src/Renderer/Polygon.hpp:41-42 | the threshold, exact: for k up to twelve, every triangle handed on with k enabled passes stays within the storage if and only if k is at most eight |
| ClipLines.SharpLineIsLine | src/Renderer/Renderer.cpp:1590-1722 | a line, with its ends, width and viewport, whose hexagon zigzags over a plane, and which the renderer hands on with no flag but those of the draw call |
| ClipLines.LineBoundIsSharp | src/Renderer/Renderer.cpp:1716-1725 | a run over three parallel planes across any such line creates eighteen points |
| ClipLines.LinePassesFitIff | src/Renderer/Polygon.hpp:41-42 | the threshold for lines: every line handed on with at most k enabled passes stays within the storage if and only if k is at most two |
| Clipper.VertexFlag | src/Renderer/Renderer.cpp:1857-1866 | a flag bit of a vertex is set exactly when the vertex is outside the frustum plane of that bit |
| Clipper.ClearBitMeansInside | src/Renderer/Renderer.cpp:1406-1408 | a bit that is clear in the combined flags means that all vertices are inside that plane |
| Clipper.ClippedIsInView | src/Renderer/Clipper.cpp:30-70 | with the flags the renderer computes, from the vertices or from a set of points that contains them, every vertex of a surviving polygon satisfies all six frustum inequalities and every user plane the draw call enables |
| Clipper.VisibleBoundaryKept | src/Renderer/Clipper.cpp:30-70 | whatever the flags, a visible point of the input boundary is on the boundary of the result |
| PolygonBuffer.PinIsExact | src/Renderer/Clipper.cpp:89-91 | assigning the coordinate of the near or far plane to a crossing point does not change it |
| PolygonBuffer.Polygon.EmitEdge | src/Renderer/Clipper.cpp:331-353 | one step of a pass appends to the output row what the edge contributes, creating points only in the shared buffer |
| PolygonBuffer.Polygon.FillRow | src/Renderer/Clipper.cpp:324-362 | the loop of a pass, index links and buffer included, writes the clipped polygon into the next row |
| PolygonBuffer.Polygon.Pass | src/Renderer/Clipper.cpp:324-362 | a pass in place leaves the clipped polygon as the current row and exactly the new points in the buffer, for any polygon |
| PolygonBuffer.ClipFrustum | src/Renderer/Clipper.cpp:36-52 | the nested frustum passes with their early outs have the effect of the run of enabled frustum stages |
| PolygonBuffer.ClipUser | src/Renderer/Clipper.cpp:54-67 | the nested user-plane passes with their early outs have the effect of the run of enabled user stages |
| PolygonBuffer.Clip | src/Renderer/Clipper.cpp:30-70 | clip in place computes the clipped polygon of any polygon, reports whether an area is left, and uses exactly the rows and points of the passes that are made |
| Matrix.RowsTimesAdjugate | src/Renderer/Matrix.cpp:47-99 | the sixteen cofactors as written are an adjugate: a matrix times it is its determinant times the identity |
| Matrix.DetIsDeterminant | src/Renderer/Matrix.cpp:239-252 | the determinant as the code expands it is the Laplace expansion |
| Matrix.PivotIsDet | src/Renderer/Matrix.cpp:49-57 | the divisor of the inverse is the determinant |
| Matrix.InverseRight | src/Renderer/Matrix.cpp:47-99 | for every matrix with non-zero determinant M times its inverse is the identity |
| Matrix.InverseLeft | src/Renderer/Matrix.cpp:47-99 | for every matrix with non-zero determinant the inverse times M is the identity |
| Matrix.InverseTranspose | src/Renderer/Matrix.cpp:101-109 | inverting and transposing commute |
| Matrix.ProductTranspose | src/Renderer/Matrix.cpp:213-219 | the transpose of a product is the reversed product of the transposes |
| Matrix.ProductApplies | src/Renderer/Matrix.cpp:213-219 | a product takes a point through one matrix after the other, in this order |
| Matrix.TransposeMoves | src/Renderer/Matrix.cpp:101-109 | the transpose moves a matrix to the other side of a scalar product |
| Matrix.PreCovariance | src/Renderer/Plane.cpp:48-56 | a plane transformed by T evaluates at T*v as the plane did at v, for every T with non-zero determinant |
| Matrix.PostCovariance | src/Renderer/Plane.cpp:38-46 | a plane post-multiplied by T evaluates at a point of the transformed space as the plane did at the original point, for every T with non-zero determinant |
| Crc.ShiftsLinear | src/Main/crc.cpp:112-125 | any number of division steps is linear over exclusive or |
| Crc.ShiftsInjective | src/Main/crc.cpp:112-125 | any number of division steps maps different remainders to different remainders if the polynomial has a constant term |
| Crc.SerialIsShifts | src/Main/crc.cpp:104-125 | adding up to a word of the message first and dividing afterwards equals dividing bit by bit |
| Crc.Reflect | src/Main/crc.cpp:56-80 | the loop reverses the bits of a word |
| Crc.CrcSlow | src/Main/crc.cpp:94-133 | the bitwise program computes the check of every message, defined as division of its bit stream |
| Crc.CrcInit | src/Main/crc.cpp:152-189 | the table holds for every byte value what dividing it does |
| Crc.LookUp | src/Main/crc.cpp:213-214 | one table look-up equals dividing a whole byte bit by bit |
| Crc.CrcFast | src/Main/crc.cpp:203-222 | the table-driven program computes the same check for every message of every length, reflected or not, so it equals the bitwise one |
| Crc.BurstDetected | src/Main/crc.cpp:94-133 | streams of equal length that differ only inside a window no wider than the check leave different remainders |
| Crc.AdjacentBytesDetected | src/Main/crc.cpp:94-133 | messages that differ only inside a run of bytes no wider than the check have different checks |
| Crc.CcittDetectsTwoBytes | src/Main/crc.h:27-37 | with the selected standard, two messages of equal length that differ only in two adjacent bytes have different checks, however the reflection macros expand |
| Crc.ReflectedStandardsQualify | src/Main/crc.h:39-61 | the other two standards have a constant term and enough width for the same theorem, the last one for words of 32 and of 64 bits |
| Crc.RemainderCompletes | src/Main/crc.cpp:94-133 | a stream followed by its remainder leaves remainder zero |
| CrcValues.WordsDivide | src/Main/crc.cpp:94-133 | machine words of up to 32 bits come to the remainders of the bit sequences, after every byte of every message |
| CrcValues.PublishedValues | src/Main/crc.h:31-61 | for the digits 123456789 the three standards have the values that the header publishes: 0x29B1 without reflection, 0xBB3D, 0xCBF43926 |
| CrcValues.CcittByReflection | src/Main/crc.cpp:28-42 | the selected standard with either reflection is the one without, of the bytes reversed and with the result reversed, for every message |
| CrcValues.ReflectedValues | src/Main/crc.cpp:28-42 | its values for the digits when the bytes are reflected |
| CrcValues.PublishedIff | src/Main/crc.h:31-37 | it has the published value exactly if neither the bytes nor the remainder are reflected |
| CacheOrder.Survives | src/Renderer/LRUCache.hpp:89-140 | an entry at depth p survives any fewer than size - p operations, and is then at most that many places deeper |
| CacheOrder.AddsPushDown | src/Renderer/LRUCache.hpp:121-139 | additions alone push every older entry down by exactly their number, so the bound is sharp |
| CacheOrder.QueryKeepsEntries | src/Renderer/LRUCache.hpp:89-119 | a query only reorders |
| CacheOrder.KeepsDistinct | src/Renderer/PixelProcessor.cpp:1054-1069 | if additions follow misses, keys stay distinct |
| CacheOrder.FindsIt | src/Renderer/LRUCache.hpp:92-116 | with distinct keys every entry is found where it is |
| CacheOrder.StillHit | src/Renderer/LRUCache.hpp:89-140 | if additions follow misses, a key at depth p is found with its own data after any fewer than size - p operations |
| CacheOrder.SwapRaises | src/Renderer/LRUCache.hpp:100-112 | swapping data and key reference at neighbouring slots moves an entry one place up and keeps the references a permutation |
| CacheOrder.HitMovesUp | src/Renderer/LRUCache.hpp:92-116 | a hit moves its entry one place up, past one other, and leaves the rest where it is |
| CacheOrder.HitsReachTheFront | src/Renderer/LRUCache.hpp:92-116 | as many hits as an entry is deep bring it to the front, where it stays |
| CacheOrder.AdvancePushes | src/Renderer/LRUCache.hpp:121-139 | writing the slot after the top pushes a new entry in front and drops the last one when full |
| CacheOrder.MaskWraps | src/Renderer/LRUCache.hpp:92-94 | masking maps an index that ran below zero or past the end to the slot it stands for |
| CacheOrder.CeilPow2 | src/Common/Math.hpp:175-185 | the loop finds the smallest power of two that is not less than its argument |
| LruCache.Routine.Bind | src/Reactor/Routine.cpp:71-74 | one more holder |
| LruCache.Routine.Unbind | src/Reactor/Routine.cpp:76-84 | one holder less; the routine frees itself exactly at zero |
| LruCache.LRUCache.constructor | src/Renderer/LRUCache.hpp:47-65 | an empty cache of the rounded-up size |
| LruCache.LRUCache.Search | src/Renderer/LRUCache.hpp:92-96 | the downward loop over masked indices finds the most recent entry with the key |
| LruCache.LRUCache.Query | src/Renderer/LRUCache.hpp:89-119 | query returns the first match and moves it one place up, or nothing; what it returns is alive |
| LruCache.LRUCache.Add | src/Renderer/LRUCache.hpp:121-139 | add pushes the new entry; conservation of binds is kept and the new routine survives even when it replaces itself |
| LruCache.LRUCache.Lookup | src/Renderer/PixelProcessor.cpp:1054-1069 | the processors' query-then-add returns live code compiled for exactly the requested state, on every run |
| LruCache.LRUCache.Hold | src/Renderer/Renderer.cpp:312-314 | a bind by a draw call keeps the invariant that counts every holder |
| LruCache.LRUCache.LetGo | src/Renderer/Renderer.cpp:942-944 | releasing the bind of a draw call frees the routine exactly when no slot and no other draw call holds it |
| LruCache.LRUCache.Destroy | src/Renderer/LRUCache.hpp:67-87 | destruction gives back every bind of the cache and frees exactly the routines nobody else holds |
| ObjectLifetime.Unknown.AddRef | src/D3D9/Unknown.cpp:45-48 | one more reference |
| ObjectLifetime.Unknown.Release | src/D3D9/Unknown.cpp:50-65 | one reference less but never below zero; deleted exactly when both counters are zero |
| ObjectLifetime.Unknown.Bind | src/D3D9/Unknown.cpp:67-70 | one more bind |
| ObjectLifetime.Unknown.Unbind | src/D3D9/Unknown.cpp:72-82 | one bind less; deleted exactly when both counters are zero |
| ObjectLifetime.CountOfWrite | src/D3D9/Direct3DDevice9.cpp:4501-4514 | writing one slot of one table changes the number of slots of two objects only |
| ObjectLifetime.NoDanglingSlot | src/D3D9/Direct3DDevice9.cpp:4501-4514 | under conservation no slot of the device or of a state block points to a deleted object |
| ObjectLifetime.Rebind | src/D3D9/Direct3DDevice9.cpp:4505-4513 | bind before unbind: the counters of all objects afterwards, and an object that replaces itself survives |
| ObjectLifetime.Put | src/D3D9/Direct3DDevice9.cpp:4505-4515 | bind, unbind, store keeps one bind per slot for every object and changes that slot alone |
| ObjectLifetime.ClearTable | src/D3D9/Direct3DStateBlock9.cpp:915-956 | emptying a table releases each of its objects once and leaves all other slots alone |
| ObjectLifetime.PutNew | src/D3D9/Direct3DDevice9.cpp:2757-2766 | an object made by the device for itself lives by its one bind |
| Bindings.Device.SetDepthStencilSurface | src/D3D9/Direct3DDevice9.cpp:2706-2734 | sets the depth stencil slot and no other; conservation is kept |
| Bindings.SlotsAreNames | src/D3D9/Direct3DDevice9.cpp:182-262 | every named binding of the device has a slot of its own and every slot is some binding's; the same for what a state block can hold, and a block slot is captured from the device slot of the same binding |
| Bindings.WriteIsNamed | src/D3D9/Direct3DDevice9.cpp:2706-2734 | writing the slot of a binding changes the object of that binding and of no other |
| Bindings.Device.WrittenIsNamed | src/D3D9/Direct3DDevice9.cpp:2928-2962 | a recordable setter changes its binding in the device, or in the block that is being recorded and then none of the device |
| Bindings.Device.SetRenderTarget | src/D3D9/Direct3DDevice9.cpp:4093-4119 | refuses an index above three and the removal of target zero, else sets the slot, also when it is unchanged |
| Bindings.Device.SetIndices | src/D3D9/Direct3DDevice9.cpp:2790-2823 | sets the index buffer slot of the device, or of the recorder while recording, and no other; conservation is kept |
| Bindings.Device.SetVertexDeclaration | src/D3D9/Direct3DDevice9.cpp:5159-5191 | sets the declaration of the device, or of the recorder while recording, and no other slot; conservation is kept |
| Bindings.Device.SetPixelShader | src/D3D9/Direct3DDevice9.cpp:2928-2962 | sets the pixel shader slot of the device, or of the recorder while recording, and no other; conservation is kept |
| Bindings.Device.SetVertexShader | src/D3D9/Direct3DDevice9.cpp:5194-5228 | sets the vertex shader slot of the device, or of the recorder while recording, and no other; conservation is kept |
| Bindings.Device.SetStreamSource | src/D3D9/Direct3DDevice9.cpp:4422-4457 | sets the stream slot with its offset and stride, of the device or of the recorder while recording; conservation is kept |
| Bindings.Device.SetTexture | src/D3D9/Direct3DDevice9.cpp:4482-4525 | refuses the sampler numbers that do not exist, else sets the translated slot; a vertex texture set while recording changes nothing |
| Bindings.VertexTexturesAreNotRecorded | src/D3D9/Direct3DStateBlock9.cpp:742-756 | the second translation sends exactly the vertex samplers out of range, so their recording is dropped |
| Bindings.BlockSamplerAgrees | src/D3D9/Direct3DStateBlock9.cpp:742-744 | the translation of the state block agrees with that of the device on the numbers an application gives |
| Bindings.SamplerNumbers | src/D3D9/Direct3DDevice9.cpp:4488-4497 | the sampler numbers that exist: below 16, and from 257 to 260, each with its own place |
| Bindings.Device.SetFVF | src/D3D9/Direct3DDevice9.cpp:2747-2774 | makes and binds a declaration exactly when the format is non-zero or none is set; while recording the format goes to the block |
| Bindings.Device.BeginStateBlock | src/D3D9/Direct3DDevice9.cpp:314-335 | recording starts with an empty block bound by the device, unless one is being recorded |
| Bindings.Device.EndStateBlock | src/D3D9/Direct3DDevice9.cpp:1316-1340 | refused without a place for the result or a recorder; else the block passes to the application without being deleted in between |
| Bindings.Device.Destroy | src/D3D9/Direct3DDevice9.cpp:182-262 | destruction empties every slot of the device, deletes and clears a block still being recorded, and conserves the rest |
| Bindings.StateBlock.constructor | src/D3D9/Direct3DStateBlock9.cpp:27-47 | a new block has empty slots, nothing captured |
| Bindings.Device.CreateStateBlock | src/D3D9/Direct3DDevice9.cpp:832-848 | a block of one of the three kinds takes the objects of its slots, and with them the layout of the streams, from the device at once, and lives by the reference of the application; no other count changes |
| Bindings.CreatedIsNamed | src/D3D9/Direct3DStateBlock9.cpp:40-62 | a created block holds the device's object for exactly the bindings of its kind: the pixel shader; the vertex shader and the declaration; or all |
| Bindings.StateBlock.Record | src/D3D9/Direct3DStateBlock9.cpp:645-652 | a block's setters change one slot and mark it captured |
| Bindings.StateBlock.SetStreamSource | src/D3D9/Direct3DStateBlock9.cpp:725-734 | a recorded stream: the object, its offset and its stride |
| Bindings.StateBlock.SetTexture | src/D3D9/Direct3DStateBlock9.cpp:742-756 | changes the slot of the twice translated sampler, or nothing if that is out of range |
| Bindings.StateBlock.Capture | src/D3D9/Direct3DStateBlock9.cpp:331-521 | every captured slot takes the object of its device slot, streams with offset and stride, all others stay, and no reference count changes |
| Bindings.StateBlock.Clear | src/D3D9/Direct3DStateBlock9.cpp:809-957 | clearing empties every slot and conserves the rest |
| Bindings.StateBlock.Release | src/D3D9/Direct3DStateBlock9.cpp:84-87 | the release that leaves neither reference nor bind deletes the block and clears it, any other changes nothing but the count |
| Bindings.Device.ReleaseBlock | src/D3D9/Unknown.cpp:50-65 | the application releases a finished block; the device, and a block still being recorded, keep their invariant |
| ConstantTracking.OverlayAt | src/Renderer/Renderer.cpp:1982-2004 | after loading a shader a register reads its last definition, else what it held; definitions lie below the high water mark |
| ConstantTracking.HighWaterIsLeast | src/Shader/Shader.cpp:1515-1544 | the register just below the high water mark is defined, so no lower mark would do |
| ConstantTracking.LoadValid | src/Renderer/Renderer.cpp:1982-2024 | loading writes exactly that overlay, and every draw call still agrees with the registers at and above its mark |
| ConstantTracking.WriteValid | src/D3D9/Direct3DDevice9.cpp:2988-3013 | a write keeps the tracking invariant |
| ConstantTracking.MarkStaysIff | src/D3D9/Direct3DDevice9.cpp:2996-3005 | the mark, and the next upload, stay within the registers exactly if the write does; the guard of the loop does not clamp the mark |
| ConstantTracking.StoredAt | src/D3D9/Direct3DDevice9.cpp:2996-3005 | a write past the registers fills exactly those that exist |
| ConstantTracking.LegalIff | src/D3D9/Direct3DDevice9.cpp:2988-3013 | the writes and shader changes that runs allow are exactly those that keep the invariant |
| ConstantTracking.SetShaderValid | src/D3D9/Direct3DDevice9.cpp:2928-2962 | a shader change keeps the tracking invariant |
| ConstantTracking.BindValid | src/D3D9/Direct3DDevice9.cpp:5873-5905 | a bind keeps the tracking invariant, leaves nothing due, and disturbs no draw call in flight |
| ConstantTracking.ChangeAloneUploadsNothing | src/D3D9/Direct3DDevice9.cpp:5873-5905 | between shaders without definitions, a change of shader uploads nothing and makes no copy stale |
| ConstantTracking.DrawIsFresh | src/Renderer/Renderer.cpp:360-367 | a draw call with a shader works from the registers as they are |
| ConstantTracking.InFlightUndisturbed | src/Renderer/Renderer.cpp:2261-2276 | no operation changes the constants of a draw call in flight until its slot is reused |
| ConstantTracking.RunRealises | src/D3D9/Direct3DDevice9.cpp:5873-5938 | after any run of writes, shader changes and draws the device holds what was last asked for, with the invariant |
| ConstantTracking.DrawSeesWhatWasAsked | src/D3D9/Direct3DDevice9.cpp:5873-5938 | after any run, a draw with a shader reads in every register the shader's last definition, or else the last value written |
| ConstantTracking.DrawWithoutShaderStores | src/Renderer/Renderer.cpp:433-440 | after any run, a draw without a vertex shader works from its other data, and the registers stay as they are |
| ConstantTracking.WrittenIsWanted | src/D3D9/Direct3DDevice9.cpp:2996-3005 | a write asks for its values in its registers and for nothing new in the others |
| ShaderConstants.AnalyzeDirtyConstants | src/Shader/Shader.cpp:1515-1544 | the analysis computes one past the highest defined register |
| ShaderConstants.Renderer.SetConstants | src/Renderer/Renderer.cpp:2261-2276 | raises the mark of every draw call and writes the run of registers |
| ShaderConstants.Renderer.LoadConstants | src/Renderer/Renderer.cpp:1982-2024 | loads all definitions in program order |
| ShaderConstants.Renderer.SetupDraw | src/Renderer/Renderer.cpp:360-440 | copies the stale part of the registers, or marks all as stale when other data takes their place |
| ShaderConstants.Device.constructor | src/D3D9/Direct3DDevice9.cpp:83-90 | writing zero to every register from a mark of zero establishes the invariant whatever the memory held |
| ShaderConstants.Device.SetConstants | src/D3D9/Direct3DDevice9.cpp:2988-3013 | the setter is the tracked write, also of runs past the last register, which its guard cuts off |
| ShaderConstants.Device.BindShaderConstants | src/D3D9/Direct3DDevice9.cpp:5873-5905 | the program is the tracked bind and keeps the invariant |
| ShaderConstants.Device.Draw | src/D3D9/Direct3DDevice9.cpp:5728-5728 | binding and copying together are the tracked draw |
| IniFormat.AddThenGet | src/Common/Configurator.cpp:181-212 | adding a value makes exactly that value readable and changes no other |
| IniFormat.LinesOfText | src/Common/Configurator.cpp:55-55 | lines without line breaks are read back as they were written |
| IniRoundTrip.ReadEntryLine | src/Common/Configurator.cpp:88-94 | a good name and value on one line are read as that assignment |
| IniRoundTrip.StopsIff | src/Common/Configurator.cpp:64-69 | reading stops exactly at a line that starts below the blank or above the tilde |
| IniRoundTrip.CommentIsIgnored | src/Common/Configurator.cpp:95-98 | a comment is ignored, alone on its line or behind something else |
| IniRoundTrip.PlainIsIgnored | src/Common/Configurator.cpp:71-73 | so is a line with nothing special in it |
| IniRoundTrip.SectionIsOpened | src/Common/Configurator.cpp:77-87 | a section is opened by what stands between the first opening and the last closing bracket |
| IniRoundTrip.ReturnIsDropped | src/Common/Configurator.cpp:59-62 | a carriage return at the end of a line is no part of the value |
| IniRoundTrip.LastLineIsRead | src/Common/Configurator.cpp:55-55 | a last line that is not terminated is read like the others |
| IniRoundTrip.PrintedLines | src/Common/Configurator.cpp:124-141 | the lines that are written for sections with and without values |
| IniRoundTrip.ReadBody | src/Common/Configurator.cpp:55-102 | every representable configuration is read back whole, without stopping |
| IniRoundTrip.BodyForced | src/Common/Configurator.cpp:55-102 | a configuration that is read back equal must satisfy the conditions in every section |
| IniRoundTrip.RoundTrip | src/Common/Configurator.cpp:40-141 | reading what was written gives the same sections, names, values and order if and only if the configuration is representable, for every one-line title |
| IniRoundTrip.CarriageReturnIsLost | src/Common/Configurator.cpp:59-62 | a concrete configuration that is not read back: a value ending in carriage return |
| Configurator.Configurator.ReadFile | src/Common/Configurator.cpp:40-112 | the reading loop computes the parse of the text and reports success exactly when it did not stop and found a section |
| Configurator.Configurator.WriteFile | src/Common/Configurator.cpp:114-141 | the writing loops produce the printed text |
| Configurator.Configurator.FindKeyID | src/Common/Configurator.cpp:143-154 | index of the first section with the name, or -1 |
| Configurator.Configurator.FindValueID | src/Common/Configurator.cpp:156-172 | index of the first value with the name, or -1 |
| Configurator.Configurator.AddValue | src/Common/Configurator.cpp:181-202 | adds or overwrites in the first section with the name, making it if needed |
| Configurator.Configurator.GetValue | src/Common/Configurator.cpp:204-212 | the value looked up, or the default |
| Configurator.SaveAndLoad | src/Common/Configurator.cpp:29-141 | a second object loaded from the written text equals the first exactly when it is representable |
| RelocationTable.InsertTargets | src/Reactor/DLL.cpp:76-85 | appending an entry to its page adds exactly its address to what a loader patches |
| RelocationTable.PaddingIsSilent | src/Reactor/DLL.cpp:94-99 | padding entries stand for nothing |
| RelocationTable.DecodeEncoded | src/Reactor/DLL.cpp:353-366 | a loader that walks the written blocks finds exactly what they stand for |
| RelocationTable.EncodedLength | src/Reactor/DLL.cpp:92-102 | the written section has the size that was added up |
| RelocationTable.PaddedIsAligned | src/Reactor/DLL.cpp:94-102 | every block starts on a 32-bit boundary |
| RelocationTable.EncodedIs16 | src/Reactor/DLL.cpp:352-367 | everything written for a page fits into 16 bits |
| SharedLibrary.TilesCover | src/Reactor/DLL.cpp:50-56 | every byte of the code section belongs to exactly one added function |
| SharedLibrary.AppendWanted | src/Reactor/DLL.cpp:58-61 | adding a relocation asks for exactly one patch more |
| SharedLibrary.StaysInFunction | src/Reactor/DLL.cpp:333-334 | an address inside a function is patched inside the same function, at the same distance from its start, and so are entry points exported |
| SharedLibrary.PatchesWholePointers | src/Reactor/DLL.cpp:82-83 | decoded, every place that is patched is a whole pointer of the machine: four bytes, or eight |
| SharedLibrary.HeadersFit | src/Reactor/DLL.cpp:111-111 | leaving the DOS header out of the size sum does no harm: the rounded values are the same and all headers end before the first section |
| SharedLibrary.HeaderSizes | src/Reactor/DLL.cpp:111-111 | the sizes that the PE Format specification gives, and which of them the miscount takes |
| SharedLibrary.LayoutIsSound | src/Reactor/DLL.cpp:225-277 | the four sections are disjoint in memory and in the file, aligned, behind the headers, and as large as the sizes they are given |
| SharedLibrary.CountFunctions | src/Reactor/DLL.cpp:286-286 | the directory counts each function once, so its number is that of the entries exactly when none was added twice |
| SharedLibrary.OrdinalsLead | src/Reactor/DLL.cpp:278-290 | a loader that looks up an ordinal in the section as written finds the entry with that number, and nothing for any other ordinal |
| SharedLibrary.ExportsOfDistinct | src/Reactor/DLL.cpp:335-349 | if each function is added once the export contents fit, and the name is where the directory says exactly on 32-bit machines |
| SharedLibrary.ExportsOf32Bit | src/Reactor/DLL.cpp:113-113 | on 32-bit machines the contents fit only then |
| SharedLibrary.RepeatedFunctionOverruns | src/Reactor/DLL.cpp:335-349 | a function added twice whose export contents run four bytes past their block |
| SharedLibrary.PageAligns | src/Reactor/DLL.hpp:33-36 | the least multiple of the page size that is large enough |
| SharedLibrary.FileAligns | src/Reactor/DLL.hpp:38-41 | the least multiple of the file block that is large enough |
| SharedLibrary.DLL.AddFunction | src/Reactor/DLL.cpp:50-56 | places the function at the end of the code and keeps the section tiled |
| SharedLibrary.DLL.CollectPages | src/Reactor/DLL.cpp:70-85 | the grouping loops account for every relocation of every function |
| SharedLibrary.DLL.PadPages | src/Reactor/DLL.cpp:92-102 | pads every block and adds up the sizes |
| SharedLibrary.DLL.Emit | src/Reactor/DLL.cpp:63-115 | decoding the emitted section yields exactly codePage + location + offset for every added relocation, as a multiset, each patch as wide as a pointer of the machine; the ordinals lead to the entries in the order of addition, the directory's count is theirs exactly when no function was added twice, and its contents fit, and the name is where the directory says, exactly when four bytes an entry compare so with a pointer a function |
| SharedLibrary.DLL.WriteExports | src/Reactor/DLL.cpp:339-347 | the export table points at the entry of each function in the order of addition |
| BlendState.ChannelMeaning | src/Renderer/Context.cpp:756-908 | for all values in the unit range, executing the simplified operation with effective factors equals the requested one |
| BlendState.FactorStands | src/Shader/PixelRoutine.cpp:2301-2430 | the factors have the values their names fix and stay in the unit range |
| BlendState.AlphaNamedIsUniform | src/Shader/PixelRoutine.cpp:2331-2380 | the seven factors named after alpha scale all colour channels alike, and but for the saturated one the alpha channel too |
| BlendState.InversesMakeOne | src/Shader/PixelRoutine.cpp:2301-2430 | each factor and its inverse make one, in every channel |
| BlendState.RequestIsColorArithmetic | src/Shader/PixelRoutine.cpp:2603-2659 | a sum or difference with one set of factors is arithmetic on whole colours, with the colour that each factor stands for |
| BlendState.InversesInterpolate | src/Shader/PixelRoutine.cpp:2603-2623 | adding with a factor and its inverse interpolates from the target to the source in every channel, unclamped; with source alpha, transparency |
| BlendState.ExtremesAreOrdered | src/Shader/PixelRoutine.cpp:2634-2643 | minimum and maximum put the two colours in order, whatever the factors |
| BlendState.Differences | src/Shader/PixelRoutine.cpp:2624-2633 | of the two differences one is nothing, and they differ by the whole |
| BlendState.SeparateHalves | src/Renderer/Context.cpp:910-1076 | with separate alpha the colour is that of one request and the alpha that of another |
| BlendState.BlendChannel | src/Shader/PixelRoutine.cpp:2603-2659 | the generated code of one channel, which does not multiply by the factors zero and one |
| BlendState.AlphaBlend | src/Shader/PixelRoutine.cpp:2583-2703 | the generated blend code yields the requested colour whenever a colour is used |
| BlendState.InactiveIsIdentity | src/Renderer/Context.cpp:733-749 | skipping the blend code leaves the requested colour |
| BlendState.EarlyOutIsIdentity | src/Renderer/Context.cpp:1462-1476 | the early out drops a write only if all four channels would be unchanged |
| BlendState.LeavesChannelIff | src/Renderer/Context.cpp:756-908 | a colour channel is left unchanged for all inputs exactly by the sum or inverse difference of nothing and all of the target, and by source times destination plus the rest of destination |
| BlendState.LeavesAlphaIff | src/Renderer/Context.cpp:910-1076 | the same for the alpha channel, where factors coincide under two names |
| BlendState.LeavesTargetIff | src/Renderer/Context.cpp:756-1076 | the exact condition on the blend state under which no target colour is changed |
| BlendState.EarlyOutIff | src/Renderer/Context.cpp:1462-1476 | when the early out fires, in terms of the requested state |
| BlendState.MissedIff | src/Renderer/Context.cpp:1469-1473 | with one set of factors, a request that changes no target is recognised, or is source times destination plus the rest of destination |
| BlendState.MissedSeparateIff | src/Renderer/Context.cpp:1469-1473 | the exact set of unrecognised requests with separate alpha |
| BlendState.WritePixel | src/Renderer/Context.cpp:1457-1476 | what a target holds after a pixel is the request in the enabled channels |
| BlendState.MaskIsByChannel | src/Renderer/Context.cpp:1457-1476 | each channel is written by its own switch |

## Left out

- Crc.Reflect: works on words as sequences of bits; at a width of 64 the source shifts an int past its width (`1 << 63`), which is undefined, and the model gives the value meant.
- Crc.CrcInit: the same holds at 64 bits for the shift of the dividend into the top byte (`dividend << 56`).
- Crc.CrcFast: works on words as sequences of bits and does not model integer promotion of the shifted operands.
- CrcValues.PublishedValues: gives the value of the third standard for words of 32 bits; at 64 bits the same polynomial makes another check, for which nothing is published.
- ClipLines.LinePassesFitIff: a line with an end at w = 0, whose direction on the screen is a division by zero, is not a line of the model; `TwoPassesFitLine` holds for every hexagon.
- LruCache.LRUCache.Query: the single search-and-return loop is written as a search followed by the exchange; copying and comparing keys is plain equality.
- Bindings.StateBlock.Capture: does not refresh the four vertex textures, whose device slot is looked up by the untranslated sampler number, nor any captured state other than objects and stream layouts.
- Bindings.StateBlock.constructor: models the block that a recording starts with; what the other kinds capture is in `CreateStateBlock`.
- Bindings.Device.CreateStateBlock: captures what `Capture` does; the vertex format the device reports is a parameter, and other kinds of state are left out.
- Bindings.Device.Destroy: does not cover the swap chain and the automatic depth buffer, which are not set through these slots.
- ShaderConstants.Device.SetConstants: models the float constants; integer and boolean constants follow the same pattern, and recording them into a state block is left out. The sum of register and count is not wrapped to 32 bits.
- ShaderConstants.Renderer.SetConstants: the rounded 16-bit copies of the first eight pixel constants are left out, and so is the check of each register number, which never fails for the runs and definitions that are allowed.
- SharedLibrary.LayoutIsSound: sizes and addresses are unbounded; the 32-bit integers of the source, which an image of two gigabytes would exceed, are not modelled.
- SharedLibrary.DLL.Emit: does not model the bytes of headers and functions, and so not the values patched into the code before it is written. Sizes are unbounded, as in the layout; only addresses in relocations and entries wrap to 32 bits.
- Configurator.Configurator.ReadFile: the file is a text; opening, access checks and conversion of values to numbers are left out. The two parallel vectors of names and values are one sequence of pairs.
- BlendState.AlphaBlend: arithmetic is over reals in the unit range instead of 16-bit fixed point; logic operations, colour space conversion and target formats are left out.
- Matrix.InverseRight: arithmetic is over reals, as in the clipper; rounding is left out.
- ResourceTheorems.BlockedCanProceed: states that progress is possible, not that it happens: fairness, back-off delays and memory ordering below single atomic accesses are left out, and the body of a critical section is one step.
- Bind and reference counts are modelled sequentially, as under the critical section of the device.
- Generated code and the code generator, frame buffer back ends, windowing, enumeration and capability tables, and the OpenGL and Direct3D front ends apart from the setters above.
- Restoring a state block to the device: constants equal to a sentinel are lost and vertex samplers are translated twice, so plain restoration is not promised by the code.
- The licence key checks that use the checksum, the half-float and colour conversions, and vertex format expansion: fixed finite domains or outside the scope.
