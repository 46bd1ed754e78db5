# ld39 core in Dafny

A model of the gameplay core and the asset tools of *ld39*, a small racing
game. It covers two parts.

**The game (C++).**
- `track`: the generator that lays out a closed chain of road segments from random draws, and the road mesh built from it.
- The height and segment queries on the track: triangle and quad traces, and the binary search `findNearestSegment`.
- `player`: per-frame speed, steering, off-track and fuel logic.
- `pickup`: gas tanks and oil spills with their trigger radii and animation clock.

**The Blender tools (Python).**
- `model_mdl.py`: the MDL file layout — materials, boxes, bones, actions, vertex formats, the triangle chunk and the header's file size.
- `export_level.py`: the collision-line builder, with vertex deduplication on rounded keys, collinear edge merging and incidence lists. It also covers the navigation grid (edge rasterisation, dilation, flood fill), the kd-tree used for the collision triangles, and the edge hash.
- `make_col_mesh.py`: the simpler stand-alone collision-line tool.

Floats are modelled as reals. Trigonometry, square roots and normalisation are fields of a `Maths` record, constrained only by the facts the proofs use. `randf` is a sequence of draws passed in, one record per generator step. Blender's `round(x, 3)` is a parameter `round3` that the model only applies as a function.

Where the comments and the code disagree, the model follows the code:
- the steering scale uses `max_speed = 24 / 0.5 = 48`;
- the half-off-track test is strict;
- `MDLMesh` stores vertex array index 0 whatever it is given;
- the `randf() < difficulty || true` test always takes its branch, although the draw is still consumed.

Files and modules:

| file | module | models |
|---|---|---|
| geometry.dfy | Wrappers, Geometry | `Result`/`Option`, vectors, the `Maths` oracle record |
| pickup.dfy | Pickups | src/pickup.h, src/pickup.cpp |
| player.dfy | Players | src/player.h, src/player.cpp |
| track_gen.dfy | TrackGen | `Track::generate` |
| track_mesh.dfy | TrackMesh | the road mesh of `Track::generate` |
| track_query.dfy | TrackQuery | `Track::traceZ`, `findNearestSegment`, the triangle tests |
| mdl.dfy | Mdl | scripts/blender/model_mdl.py |
| col_geometry.dfy | ColGeometry | plane cuts and box/line tests of both tools |
| vertex_table.dfy | VertexTables | `veckey3d` and the index dictionary |
| col_mesh.dfy | ColMeshes | `ColMesh2D` of export_level.py |
| nav_grid.dfy | NavGrids | `buildNavGrid` of export_level.py |
| kd_tree.dfy | KdTrees | `COLMesh`, the kd build and `edgeHash` of export_level.py |
| make_col_mesh.dfy | SimpleColMeshes | scripts/blender/make_col_mesh.py |

## Model

| member | source | states |
|---|---|---|
| Geometry.PerpOrthogonal | src/track.cpp:102 | the tangent (dir.y, -dir.x) is perpendicular to the direction and as long as it |
| Pickups.NewPickup | src/pickup.h:6-17 | a new pickup keeps the given type and position, is active, and its animation clock starts at 0 |
| Pickups.TryCollect | src/pickup.cpp:4-23 | an inactive pickup is left as it is and has no effect; an active one fires exactly when the player is strictly closer than 2 (gas tank) or 3 (oil spill), compared on squared distances; when it fires it calls its kind's callback and deactivates, and an oil spill also resets its clock to 0; type and position never change |
| Pickups.TryCollectOnce | src/pickup.cpp:4-5 | once a pickup has fired, any later call is a no-op |
| Pickups.DrawStep | src/pickup.cpp:25-38 | each call advances the clock by 1/60; an active pickup is drawn at scale 1; an inactive gas tank is not drawn; an inactive oil spill is hidden exactly when 1 - 2·anim_time < 0 |
| Pickups.DrawFramesClock | src/pickup.cpp:25-26 | after n calls the clock has advanced by n/60, and the last call shows what one call shows from the clock advanced by (n-1)/60 |
| Pickups.OilSpillShrinkOut | src/pickup.cpp:35-37 | an oil spill that has just fired is drawn on exactly its first 30 frames, at scale 1 - n/30 on frame n, and is hidden from frame 31 on |
| Players.StateOf | src/player.h:8-14 | a decoded state is one whose flag triple is exactly the flags stored |
| Players.StateFlagsRoundTrip | src/player.h:25-28 | a flag triple decodes to a state exactly when exploded implies fell_off_track and fell_off_track implies not alive; decoding a state's flags gives that state back |
| Players.Reset | src/player.cpp:61-73 | afterwards the car is alive, with no oil, a full tank and distance 0; its heading is along +y; it is at y = 4 and height 50; speed, x, the timers and the probe flags are unchanged |
| Players.Init | src/player.h:54-72 | from any prior field values, `init` ends alive, with consistent flags, no oil, a zero half-off timer, a full tank and distance 0 |
| Players.OnFellOffTrack | src/player.cpp:90-103 | the car leaves the alive state and is marked as fallen, with both fall clocks at 0; its velocity is speed times its heading direction, 4 upward, and ±5 in x for each side probe that is off; nothing else changes |
| Players.FallNudgesCancel | src/player.cpp:100-102 | with both side probes off, or both on, the two x nudges cancel |
| Players.OnExploded | src/player.cpp:105-111 | the car is exploded and not alive; the explosion is centred one unit above the car with its clock at 0; position, velocity, speed and heading are unchanged |
| Players.CheckTrack | src/player.cpp:75-88 | a no-op unless alive; otherwise three probes set the flags, the centre probe writes the distance, and the car takes the traced height when the centre is on the road and falls off otherwise |
| Players.CheckTrackKeepsState | src/player.cpp:75-88 | the track check keeps the flags consistent and never moves the car back along alive, fallen, exploded |
| Players.CheckTrackHeight | src/player.cpp:82-84 | on a generated track with non-degenerate road quads, a car still alive after the check rides at height 50 |
| Players.Acceleration | src/player.cpp:156 | the throttle curve is max(24 - 0.5·speed, 0): never negative, and 0 exactly from speed 48 on |
| Players.Deceleration | src/player.cpp:157 | 60 while moving forward; otherwise max(12 + 1.6·speed, 0), which is 0 exactly from -7.5 down |
| Players.EngineBrakeTowardZero | src/player.cpp:173-184 | with neither pedal held, a positive speed drops by 20·dt but not below 0; a speed below -0.001 rises by 20·dt but not above -0.001; speeds in [-0.001, 0] are untouched |
| Players.EngineBrakeSettles | src/player.cpp:173-184 | applying the engine brake again to a settled speed changes nothing |
| Players.BrakeStopsAtZero | src/player.cpp:166-172 | holding the brake without a fresh press never turns a forward or standing car into reverse |
| Players.PressToReverse | src/player.cpp:166-171 | a fresh brake press from standstill engages reverse at 12·dt |
| Players.ThrottleBelowMaxSpeed | src/player.cpp:156-165 | with the throttle alone and dt at most 2, a speed at most 48 grows and stays at most 48 |
| Players.OilSpillPedals | src/player.cpp:159-162 | during an oil spill the held pedals leave speed unchanged, and with no pedal held only the engine brake acts |
| Players.SteeringAngle | src/player.cpp:186-188 | +22.5° exactly for left without right, -22.5° exactly for right without left, and 0 exactly when both or neither are held |
| Players.SteeringScale | src/player.cpp:193-195 | for speeds in [0, 48] the scaled angle keeps the chosen angle's sign and shrinks linearly, to the full angle at 0 and to 0 at 48; above 48 its sign flips |
| Players.OilStep | src/player.cpp:138-140 | a positive oil clock runs down by dt, clamped at 0; a clock at or below 0 is left alone |
| Players.OilSpillRunsOut | src/player.cpp:138-140 | for dt > 0 the clock never rises and never goes negative; it drops exactly while positive, and hits 0 exactly when it held at most dt |
| Players.HalfOffStep | src/player.cpp:146-154 | the half-off timer grows by dt while a side probe is off and resets to 0 when both are on; the car falls only when the timer is strictly above 1 |
| Players.HalfOffThresholdStrict | src/player.h:72 | a timer that reaches exactly 1 second does not yet make the car fall, although the comment says reaching it does |
| Players.FrontSteer | src/player.cpp:204 | the front wheel goes straight during an oil spill or with no single steering key; otherwise it takes the speed-scaled angle |
| Players.Drive | src/player.cpp:197-210 | the bicycle move keeps the height and sets the new speed; it moves the car in the plane by dt·speed along the back wheel's heading plus the front wheel's steered heading |
| Players.BicycleDisplacement | src/player.cpp:198-207 | the wheel offsets cancel, so the car moves by the wheels' travel; with straight steering it moves twice the travel along its heading |
| Players.Tick | src/player.cpp:113-210 | a tick never writes the fuel or the distance, and a car that is not alive before a tick is not alive after it |
| Players.TickKeepsState | src/player.cpp:113-154 | a tick keeps the flags consistent and never moves the car back along the life cycle |
| Players.DeadTickFrame | src/player.cpp:124-137 | while not alive, a tick keeps speed, heading, fuel, distance, the oil and half-off clocks and the probe flags; it lowers the vertical velocity by 10·dt; it explodes the car exactly in the frame where the fall clock first exceeds 1.5 |
| Players.LiveTickMove | src/player.cpp:197-207 | a live tick moves the car in the plane by dt times the new speed, along the back wheel's heading plus the front wheel's steered heading |
| Players.LiveTickStraight | src/player.cpp:204-205 | during an oil spill, or with straight steering, both wheels roll along the heading |
| Players.LiveTickHeight | src/player.cpp:113-210 | a live tick keeps the car's height and gives it the pedals' speed after drag |
| Players.LiveTickDrives | src/player.cpp:138-210 | a live tick is the bicycle move applied to the car after its timers, which do not move it |
| Players.LiveTickSpeed | src/player.cpp:138-191 | a live tick runs the oil clock down; while the spill lasts the pedals only pass speed through; the new speed is the pedals' speed times 0.998 |
| Players.FrameKeepsState | src/game.cpp:67-68 | a frame (tick, then track check) keeps the flags consistent and never moves the car back along the life cycle |
| Players.FallenStaysDown | src/player.cpp:124-137 | once the car has fallen off, no run of frames makes it alive again |
| TrackGen.RandRange | src/track.cpp:46-48 | `rand_rangef` with an oracle draw in [0,1] returns a value in [min, max] |
| TrackGen.Straighten | src/track.cpp:98-99 | the straightened, clamped direction never points toward -y |
| TrackGen.HeadingStep | src/track.cpp:94-102 | after every heading update dir.y ≥ 0 |
| TrackGen.StraightenZero | src/track.cpp:98-101 | for a unit direction, straightening and clamping give the zero vector exactly when the turned direction is straight down |
| TrackGen.HeadingStepUnit | src/track.cpp:94-102 | unless the turn pointed straight down, the new heading is a unit vector |
| TrackGen.Stamp | src/track.cpp:75-76 | each placed segment's width lies in [16, 20] |
| TrackGen.NextCursor | src/track.cpp:88-102 | the next segment starts at the end of the one just placed; its length is at most 30 and at most 1000 - distance + 0.1, and it is at least 20 unless that clamp applied; the height is unchanged; dir.y ≥ 0 and t = (dir.y, -dir.x) |
| TrackGen.ChainExtend | src/track.cpp:74-88 | appending a segment whose distance is the total so far and which starts where the last ends keeps the chain properties: accumulated distances, contiguity, per-segment ranges, start at the origin heading +y |
| TrackGen.Iterate | src/track.cpp:74-101 | one pass of the generator loop, taken while the distance is below 1000, runs at most 50 times and keeps the loop invariant: the chain properties, the distance as the sum of lengths, the cursor starting where the chain ends, one oil spill per segment |
| TrackGen.CountStep | src/track.cpp:74-91 | the bounds on the distance covered by n segments carry over to n + 1 segments |
| TrackGen.CountBound | src/track.cpp:74 | while the loop still runs fewer than 50 segments have been placed, which bounds the loop |
| TrackGen.IterationStep | src/track.cpp:74-103 | one iteration of the generator loop keeps the whole loop invariant: chain properties, the count bounds, one oil spill per segment and a valid cursor |
| TrackGen.Generate | src/track.cpp:50-109 | the generator makes between 34 and 50 segments forming a chain: each distance is the sum of earlier lengths, each segment starts where the previous ends, widths are in [16,20], heights are 50, lengths are in (0.1, 30], dir.y ≥ 0, t is perpendicular, and the first segment starts at the origin heading +y with length 30; the total length equals the sum of lengths and lies in [1000, 1000.1]; there is one oil spill per segment from that iteration's draws, followed by the gas tank at (0,12,50) and the oil spill at (2,12,50) |
| TrackGen.ObstacleOffsets | src/track.cpp:79-83 | each oil spill sits at lateral offset x in [-w/2+2, w/2-2] along the tangent and y in [0, length] along the direction, at the segment's height |
| TrackMesh.CrossSection | src/track.cpp:116-122 | each cross-section has its feet on z = 0 directly under the rails, its rails at the segment's height, and a road of the segment's width along the tangent, centred on the base point |
| TrackMesh.BuildPoints | src/track.cpp:112-122 | the points loop emits 4 points per segment, point 4i + j being corner j of segment i |
| TrackMesh.BuildIndices | src/track.cpp:123-134 | the index loop emits 18·(n-1) indices (none for fewer than two segments); every index is below 4n; joint i uses only cross-sections i and i+1, laid out quad by quad; no triangle repeats a point |
| TrackMesh.JointIndicesShape | src/track.cpp:125-133 | one outer iteration pushes 18 indices, laid out per quad, with no degenerate triangle |
| TrackMesh.AppendJointLayout | src/track.cpp:124-134 | appending a joint extends the per-quad layout of the earlier joints |
| TrackMesh.AppendJointRange | src/track.cpp:124-134 | appending a joint keeps every index inside the 4n points and inside its own two cross-sections |
| TrackMesh.AppendJointFaces | src/track.cpp:124-134 | appending a joint keeps every triangle non-degenerate |
| TrackMesh.QuadWinding | src/track.cpp:126-132 | the two triangles of a quad share the diagonal and traverse it in opposite directions, so they wind the same way; neither repeats a point |
| TrackMesh.RoadQuad | src/track.cpp:126-132 | the road quad between cross-sections i and i+1 is made of their rail points, triangles (4i+1, 4i+2, 4i+5) and (4i+6, 4i+5, 4i+2) |
| TrackMesh.BuildVertexData | src/track.cpp:147-163 | the vertex buffer holds 6 floats per index; reading it back gives the indexed point and the normal of the face that index belongs to |
| TrackMesh.AppendFace | src/track.cpp:152-162 | writing one face's three records extends the point and normal read-back by that face |
| TrackMesh.NormalFollowsWinding | src/track.cpp:156 | for a non-degenerate triangle, the stored normal is parallel to the edges' cross product and points the same way |
| TrackMesh.BuildMesh | src/track.cpp:111-163 | for a chain of n segments the mesh has 4n points, 18·(n-1) indices that all address points, and 6 floats per index, which read back as the indexed points |
| TrackQuery.InTriangle | src/track.cpp:172-180 | the early-rejecting test answers inside exactly when the three edge cross products of the translated vertices have pairwise non-negative dot products, so edge and vertex points count as inside |
| TrackQuery.InTriangleRotate | src/track.cpp:172-180 | rotating the vertex order does not change the answer |
| TrackQuery.InTriangleMirror | src/track.cpp:172-180 | swapping two vertices, and so reversing the winding, does not change the answer |
| TrackQuery.VerticesInside | src/track.cpp:172-180 | each vertex of a triangle is inside it |
| TrackQuery.CentroidInside | src/track.cpp:172-180 | the centroid of any triangle, even a degenerate one, is inside it |
| TrackQuery.TraceTriangleZ | src/track.cpp:182-187 | no height is produced exactly when the plane normal has z = 0 (the division by zero), and then there is no hit; otherwise the lifted point lies on the triangle's plane and the trace hits exactly when that point is inside the triangle |
| TrackQuery.FlatTriangleHeight | src/track.cpp:182-187 | on a horizontal non-degenerate triangle at height h the traced height is h, and the hit is the inside test at height h |
| TrackQuery.TraceQuadZ | src/track.cpp:189-192 | a quad hits exactly when triangle (q0,q1,q2) or triangle (q3,q2,q1) hits, and a hit always comes with a height |
| TrackQuery.FlatQuadHeight | src/track.cpp:189-192 | on a horizontal quad at height h with non-degenerate triangles, a hit reports height h |
| TrackQuery.ProbeAt | src/track.cpp:263-300 | a pivot probe hits only when the point is at or after the segment's start line (dp ≥ 0, dp being the offset along the direction), not past the far line, and between the near rails' lowest y and the far rails' highest y |
| TrackQuery.HitWithinLength | src/track.cpp:284-297 | on the last segment, or one the next segment continues straight, with a unit direction, a hit lies within the segment: 0 ≤ dp ≤ length |
| TrackQuery.Search | src/track.cpp:260-309 | the binary search returns a hit only at a pivot inside the bounds whose probe hit; a break through the underflow guard happens only with lower bound 0, upper bound at most 1, and segment 0 probing Below; otherwise the bounds end crossed |
| TrackQuery.SearchLoop | src/track.cpp:260-309 | the imperative loop with size_t bounds ends exactly as the recursive search from the full range |
| TrackQuery.SearchIteration | src/track.cpp:262-307 | one pass of the while loop either returns the search's final answer or narrows [li, ui] strictly, keeping the answer the same |
| TrackQuery.SearchStep | src/track.cpp:262-308 | each loop iteration moves the bounds as the probe at the pivot dictates: return on a hit, break on Below at pivot 0, upper bound to pivot - 1 on Below, lower bound to pivot + 1 on Above |
| TrackQuery.SearchFinds | src/track.cpp:257-258 | when all segments before k probe Above, k hits and all after probe Below (the y-ordering the comment relies on), the search finds k from any bounds containing k |
| TrackQuery.SearchAllAbove | src/track.cpp:306-307 | when every probe says Above the search ends with the bounds past the last segment |
| TrackQuery.SearchAllBelow | src/track.cpp:303-305 | when every probe says Below the search breaks at pivot 0, with upper bound given by repeatedly halving |
| TrackQuery.TraceZ | src/track.cpp:256-312 | when the search finds nothing, the point is off the track and nothing is written; when it finds segment i the distance written is that segment's distance plus the point's offset along it, and the on-track answer and height are those of its road quad; on track always comes with a height and a distance |
| TrackQuery.TraceZOrdered | src/track.cpp:256-297 | under the y-ordering around segment k, traceZ answers with segment k's road quad and distance |
| TrackQuery.TraceUsesMeshRoad | src/track.cpp:273-296 | for every segment but the last, the quad traceZ tests has exactly the corners of the mesh's road triangles, in the same order |
| TrackQuery.TraceZHeight | src/track.cpp:256-296 | on a generated track with non-degenerate road quads, a point traceZ puts on the track is at height 50 |
| TrackQuery.FindNearestSegment | src/track.cpp:195-254 | a result is always a valid segment index, and a segment the search finds is returned |
| TrackQuery.FindNearestSucceeds | src/track.cpp:249-250 | the assertion is not reached under the y-ordering (the found segment is returned) or when every probe says Above (the last segment is returned); when every probe says Below it is avoided exactly when the search ends with upper bound 0 |
| TrackQuery.BehindFirstSegment | src/track.cpp:207 | a point below both start rails of segment 0 probes Below there |
| TrackQuery.FindNearestAssertReachable | src/track.cpp:242-252 | on a chain of two segments, a point behind the first segment's start rails breaks out with lower bound 0 and upper bound 1, and reaches `assert(false)` |
| TrackQuery.BelowChainGeneratedCounts | src/track.cpp:242-250 | for the chain lengths the generator makes (34 to 50), a point behind every segment ends the search with upper bound 0 for 34 to 46 segments and upper bound 1, which reaches the assertion, for 47 to 50 |
| TrackQuery.FindNearestSegmentFixed | src/track.cpp:242-252 | the corrected search agrees with the original wherever the original succeeds, returns only valid indices, and answers the first segment whenever the loop left through the underflow guard |
| TrackQuery.FixedFindsFirstWhenBehind | src/track.cpp:242-250 | with the fix, a point behind every segment gets the first segment for every chain length |
| Mdl.FindFrom | scripts/blender/model_mdl.py:10 | `str.find` from position k: -1 exactly when the pattern occurs nowhere from k on, and otherwise the first position where it occurs |
| Mdl.Find | scripts/blender/model_mdl.py:10 | `str.find` from the start: -1 exactly when the pattern occurs nowhere, otherwise the first position where it occurs, which leaves room for the whole pattern |
| Mdl.MaterialPath | scripts/blender/model_mdl.py:6-11 | when the path contains "textures/", the stored path is everything after its first occurrence; when it does not, `find` returns -1 and the stored path drops the first eight characters |
| Mdl.MaterialPathRelative | scripts/blender/model_mdl.py:8-11 | a path of the form dir + "textures/" + name, with no earlier occurrence, is stored as name |
| Mdl.Aabb | scripts/blender/model_mdl.py:19-28 | the box bounds every vertex componentwise; with no vertices it stays (+max float, -max float), taking the double-precision maximum as the start value; each bound is the start value or a coordinate some vertex has |
| Mdl.ParentOf | scripts/blender/model_mdl.py:39-43 | a bone has a parent exactly when its parent index is not 255, and then it is that index |
| Mdl.BoneParentRoundTrip | scripts/blender/model_mdl.py:39-43 | storing an optional parent (255 for none) and reading it back gives the same option, for every parent index except 255 |
| Mdl.WriteAction | scripts/blender/model_mdl.py:86-96 | writing an action succeeds exactly when every track has `frame_count` poses; then it writes `getSize` bytes, which is 24 + tracks·(4 + 32·frame_count) |
| Mdl.DecimalValue | scripts/blender/model_mdl.py:123-124 | the decimal digits written for a component count read back as that count |
| Mdl.ParseRender | scripts/blender/model_mdl.py:134-143 | the concatenated format string of a list of (count, type) items parses back to exactly those items |
| Mdl.AlignUp | scripts/blender/model_mdl.py:142-143 | `calcsize` places each item at the next multiple of its type's size: never before the current offset, less than one alignment later, and unchanged when already aligned |
| Mdl.CalcFromBounds | scripts/blender/model_mdl.py:142-143 | the vertex size is at least the packed size of the items and at most 3 bytes of padding per item more |
| Mdl.CalcFromFloats | scripts/blender/model_mdl.py:142-143 | a format of floats only has no padding: its size is 4 per component |
| Mdl.NewVertexFormat | scripts/blender/model_mdl.py:129-137 | building a format fails exactly when there are more than 8 attributes or one has 0 components; otherwise it has 8 slots, each holding the (count, type code) of the last attribute of that kind or (0, 0), and the format string renders the attributes in order |
| Mdl.VertexSizeOfAttribs | scripts/blender/model_mdl.py:139-143 | the vertex size of a format built from attributes is the aligned size of their items, between the packed size and 3 bytes per item more |
| Mdl.FlattenSlots | scripts/blender/model_mdl.py:148-149 | the slot table is written as count, type pairs in slot order |
| Mdl.SlotTableSize | scripts/blender/model_mdl.py:145-149 | the 8 flattened slots fill exactly the 16 bytes `getSize` reports |
| Mdl.VertexArrayWriteSize | scripts/blender/model_mdl.py:158-168 | writing a vertex array emits the 16-byte format, the 4-byte length and one vertex size per vertex, which is its `getSize` |
| Mdl.NewMesh | scripts/blender/model_mdl.py:170-173 | a new mesh keeps its batches but records vertex array 0, whatever index it is given |
| Mdl.BatchBytesClosed | scripts/blender/model_mdl.py:285-287 | the batches of a mesh take 12 bytes each plus 2 per index |
| Mdl.TriangleUnpaddedClosed | scripts/blender/model_mdl.py:280-287 | the unpadded chunk size is the 12-byte header, 12 per mesh, 12 per batch and 2 per index |
| Mdl.TriangleChunkSize | scripts/blender/model_mdl.py:280-292 | the triangle chunk's size in closed form: 12 for the header, 12 per mesh, 12 per batch and 2 per index, plus 2 padding bytes exactly when the total index count is odd |
| Mdl.ChunkSize | scripts/blender/model_mdl.py:202-292 | every chunk's `getSize` includes its 12-byte chunk header, and the triangle chunk's size is a multiple of 4 |
| Mdl.TrianglePadding | scripts/blender/model_mdl.py:288-310 | `getSize` pads exactly when the total index count is odd, the condition `write` uses for its 2 pad bytes, and the padded size is a multiple of 4 |
| Mdl.WriteTriangleChunk | scripts/blender/model_mdl.py:293-311 | each batch header records the batch's material, the number of indices in all earlier batches as its start, and its own count; the trailing count is the total number of indices; the bytes written are `getSize` plus 4 |
| Mdl.WriteBatchHeaders | scripts/blender/model_mdl.py:298-301 | the batch loop of one mesh adds one header per batch, each starting at the number of indices in all earlier batches, and leaves the running count at the total over them all |
| Mdl.FileSize | scripts/blender/model_mdl.py:331-335 | the recorded file size is at least the 16-byte header plus a 12-byte header per chunk |
| Mdl.FileSizeVersusWritten | scripts/blender/model_mdl.py:323-350 | the file written is longer than the `file_size` in its header by 4 bytes per triangle chunk |
| Mdl.FixedFileSizeMatches | scripts/blender/model_mdl.py:280-311 | counting the index count field in the triangle chunk's size makes the recorded file size equal to the bytes written |
| ColGeometry.CutParameter | scripts/blender/make_col_mesh.py:13 | for end distances of opposite sign, t = d0/(d0-d1) lies strictly between 0 and 1 and interpolates the distance to 0 |
| ColGeometry.SegmentPlane | scripts/blender/make_col_mesh.py:8-14 | a cut point exists exactly when the product of the signed end distances is at most -1e-6, and it is then a point strictly between the ends |
| ColGeometry.SegmentPlaneOnPlane | scripts/blender/export_level.py:41-47 | the cut point lies on the plane n·x = d |
| ColGeometry.AabbVsLine | scripts/blender/export_level.py:49-62 | a segment with both ends beyond the same face of the box misses; otherwise a segment with \|dx\| or \|dy\| below 1e-6 counts as hitting |
| ColGeometry.AabbVsLineMissSound | scripts/blender/export_level.py:49-74 | when the test says miss, no point of the segment is strictly inside the box |
| ColGeometry.SlabsOverlap | scripts/blender/export_level.py:59-74 | when some point of the segment is strictly inside the box, the slab intervals overlap and the test says hit |
| ColGeometry.FaceCuts | scripts/blender/make_col_mesh.py:59-68 | walking the face's edges, wrapping from the last corner to the first, yields at most one cut per edge, and every cut lies on the plane n·x = d |
| ColGeometry.CollinearOnLine | scripts/blender/export_level.py:367-368 | three points on one line, a repeated point included, pass the `area_tri < 1e-4` test, which is stated on the squared cross product |
| ColGeometry.OrientedCut | scripts/blender/make_col_mesh.py:59-78 | a face yields an edge exactly when the plane cuts it at two points; the edge joins those two points, ordered so that its right-hand normal has a non-negative dot product with the face normal's xy |
| VertexTables.VecKeyMatch | scripts/blender/export_level.py:37-38 | two vectors get the same `veckey3d` key exactly when each of their three coordinates rounds to the same value |
| VertexTables.Insert | scripts/blender/export_level.py:341-350 | a known key returns its stored index and leaves the table alone; a new key gets index = old length, its vertex is appended and the key registered; the table stays consistent |
| VertexTables.InsertUnique | scripts/blender/make_col_mesh.py:34-41 | after the call the returned index is the only vertex with the key |
| VertexTables.InsertIdempotent | scripts/blender/make_col_mesh.py:34-41 | registering the same vertex twice changes nothing the second time and returns the same index |
| VertexTables.KeyDeterminesVertex | scripts/blender/export_level.py:325 | in a consistent table no two stored vertices share a key |
| ColMeshes.UpdateBounds | scripts/blender/export_level.py:335-339 | the new box contains the vertex and everything the old box contained, and is unchanged when the vertex was already inside |
| ColMeshes.UpdateBoundsTight | scripts/blender/export_level.py:322-339 | from the initial infinite bounds the box becomes exactly the vertex's xy; afterwards every bound is the old bound or the vertex's coordinate |
| ColMeshes.IncidentAppend | scripts/blender/export_level.py:393-396 | appending an edge adds it once per end to the edges at each vertex |
| ColMeshes.IncidentRemove | scripts/blender/export_level.py:371-373 | removing the first occurrence of an edge removes it once per end from the edges at each vertex |
| ColMeshes.GetIndex | scripts/blender/export_level.py:341-350 | the bounds grow to take in the vertex; a known key returns its index and changes no list; a new key appends the vertex and an empty incidence list at index = old length; the edges are untouched and the mesh stays consistent |
| ColMeshes.ListedAt | scripts/blender/export_level.py:365-366 | an edge in vertex i's incidence list is an edge of the mesh with i as an end, and its other end is a vertex |
| ColMeshes.FirstCollinear | scripts/blender/export_level.py:365-376 | the loop stops at the first listed edge whose other end is collinear with the new edge, or runs off the list if there is none |
| ColMeshes.RemoveFirst | scripts/blender/export_level.py:371-373 | `list.remove` drops exactly the first element equal to the value: the list is the part before that element followed by the part after it, one shorter, and one copy of the value leaves the multiset |
| ColMeshes.Unlink | scripts/blender/export_level.py:371-373 | removing an incident edge from the edge list and from both ends' lists removes exactly one copy of it and keeps the mesh consistent |
| ColMeshes.Link | scripts/blender/export_level.py:392-396 | appending an edge puts it at the end of the edge list and once per end into the incidence lists, keeping the mesh consistent |
| ColMeshes.MergeAt | scripts/blender/export_level.py:364-390 | the mesh is unchanged exactly when no edge at that end has a collinear other end; otherwise one edge is removed and the end moves to that edge's other end and its stored position |
| ColMeshes.AddEdge | scripts/blender/export_level.py:357-396 | both end keys get registered and the bounds take in both points; equal keys leave the edges alone; otherwise the edge count changes by -1 to +1 and the mesh stays consistent |
| ColMeshes.AddEdgeNoMerge | scripts/blender/export_level.py:392-396 | with no collinear neighbour at either end, the edge between the two registered vertices is appended and nothing else changes in the edge list |
| ColMeshes.FirstEdge | scripts/blender/export_level.py:357-396 | the first edge of an empty mesh joins vertices 0 and 1, and each lists it once |
| ColMeshes.ReverseMerge | scripts/blender/export_level.py:364-376 | adding (q, p) after (p, q): the first end's check finds the existing edge collinear (its other end is the new edge's far end), removes it and moves the end to vertex 0 |
| ColMeshes.AddEdgeReverseMakesLoop | scripts/blender/export_level.py:357-396 | after adding (p, q) and then (q, p), the only edge is the loop (0, 0), which the `i0 == i1` check was meant to exclude |
| ColMeshes.AddEdgeFixed | scripts/blender/export_level.py:357-396 | with the equal-ends check repeated after merging, a loop-free edge list stays loop-free, and the other guarantees of `addEdge` still hold |
| ColMeshes.RebuildVertexList | scripts/blender/export_level.py:398-412 | rebuilding keeps the number of edges and each edge's end positions, leaves only vertices that are an end of some edge, keeps the bounds and keeps the mesh consistent |
| NavGrids.Spread | scripts/blender/export_level.py:429-436 | starting from (0, 0) on both sides, the per-axis minimum and maximum over the incident edge normals bracket 0 and every normal, and each is 0 or some normal's component |
| NavGrids.DilateBound | scripts/blender/export_level.py:426-439 | with unit edge normals, dilation moves a vertex by at most the tank radius 1.337 along each axis and keeps its height |
| NavGrids.Trunc | scripts/blender/export_level.py:415 | Python's `int()` truncates toward zero: within 1 below a non-negative value and within 1 above a negative one |
| NavGrids.GridSize | scripts/blender/export_level.py:445-446 | the grid has a size exactly when bounds exist (infinite bounds make `int()` raise) |
| NavGrids.GridSizeRounds | scripts/blender/export_level.py:445-446 | for a non-empty box each side is its extent in tiles rounded half up: within half a tile of the exact quotient |
| NavGrids.GridPoint | scripts/blender/export_level.py:414-415 | a point has a tile exactly when bounds exist |
| NavGrids.GridPointInTile | scripts/blender/export_level.py:414-415 | a point at or above the lower bound lies in the tile `toGridPoint` gives it: the tile's lower corner is at or below it and its upper corner above it |
| NavGrids.Put | scripts/blender/export_level.py:468-471 | setting one tile changes that tile and no other, and keeps the grid's shape |
| NavGrids.BuildEdgeGrid | scripts/blender/export_level.py:448-458 | the edge grid has h rows of w tiles, each 0 or 1, and a tile is 1 exactly when some dilated edge crosses it |
| NavGrids.Neighbours | scripts/blender/export_level.py:473-480 | the fill pushes eight tiles, which are exactly the tiles touching the popped one along a side or at a corner |
| NavGrids.FloodFill | scripts/blender/export_level.py:461-480 | the fill terminates; tiles hold 0, 1 or 2, with 2 only on crossed tiles and 1 only on open ones; every tile marked 1 can be reached from the start over open tiles; every 2 is the start or touches a 1; an in-grid start is marked; no neighbour of a 1 is left unmarked |
| NavGrids.FloodFillExact | scripts/blender/export_level.py:461-480 | when the start is open, the tiles marked 1 are exactly those reachable from it |
| NavGrids.EdgeGridIsBlocked | scripts/blender/export_level.py:451-458 | a grid with the edge grid's tile values is exactly the grid of crossed tiles |
| NavGrids.BuildNavGrid | scripts/blender/export_level.py:418-480 | a grid is built exactly when the mesh has bounds; it has the rounded size, marks 1 only on tiles reachable from the first spawn point's tile without crossing a dilated edge, and when that tile is open marks 1 on exactly those tiles |
| KdTrees.MergeBoxes | scripts/blender/export_level.py:631-638 | the merged box contains every box, and each of its bounds on each axis is the bound of some box |
| KdTrees.MakeTriangle | scripts/blender/export_level.py:596-611 | the triangle keeps its positions, and its box is ordered and contains every position |
| KdTrees.MakeNode | scripts/blender/export_level.py:626-638 | a node keeps its triangles and offset, and its box contains every triangle's box |
| KdTrees.ChooseAxis | scripts/blender/export_level.py:656-660 | the split axis as written is always 0, 1 or 2 |
| KdTrees.ChooseAxisNeverZ | scripts/blender/export_level.py:659-660 | because the z test compares `bmax[2] - bmax[2]`, which is 0, the split axis is never z for an ordered box |
| KdTrees.ChooseAxisMissesZ | scripts/blender/export_level.py:656-660 | a 1×1×10 box is split along x although z is its longest axis |
| KdTrees.ChooseAxisFixed | scripts/blender/export_level.py:655-660 | with the z test comparing the z extent, the split axis is a longest axis of the box, the lowest-numbered one on a tie |
| KdTrees.FirstAbove | scripts/blender/export_level.py:663 | the insertion point is the first position after k whose centre is above the key; every centre before it is at most the key |
| KdTrees.InsertByCenter | scripts/blender/export_level.py:663 | inserting into a list sorted by centre gives a list sorted by centre with the same triangles plus the new one |
| KdTrees.InsertKeepsSorted | scripts/blender/export_level.py:663 | placing a triangle after every centre at most its own and before the first larger one keeps the list sorted |
| KdTrees.SortByCenter | scripts/blender/export_level.py:613-614 | the sort along an axis is a permutation of the triangles and orders them by the centre of their boxes on that axis |
| KdTrees.Half | scripts/blender/export_level.py:664 | `int(len/2)` is the floor of half the count, and for two or more triangles both halves are non-empty |
| KdTrees.SortForSplitAsWrittenPermutes | scripts/blender/export_level.py:655-663 | the order `subdivide` as written gives an inner node's triangles keeps the count and the multiset of triangles, for every list |
| KdTrees.SortForSplitAsWrittenSorts | scripts/blender/export_level.py:655-663 | `subdivide` as written orders a node's triangles by the centre of their boxes along the axis the `bmax[2] - bmax[2]` test picks for the node's box |
| KdTrees.SortForSplitFixedPermutes | scripts/blender/export_level.py:655-663 | the corrected order, along the longest axis, keeps the count and the multiset of triangles, for every list |
| KdTrees.SortForSplitFixedSorts | scripts/blender/export_level.py:655-663 | the corrected order sorts a node's triangles by centre along the longest axis of the node's box |
| KdTrees.BuildLeaf | scripts/blender/export_level.py:650-654 | at most `tpl` triangles make a single leaf node at the given offset |
| KdTrees.BuildSplit | scripts/blender/export_level.py:654-668 | more than `tpl` triangles make an inner node holding the sorted triangles, whose subtrees are built from the front half at the same offset and from the back half at offset + `int(len/2)`, and whose offset is minus the number of nodes below it |
| KdTrees.SubdivideSplit | scripts/blender/export_level.py:650-668 | the appended node list of a split is the node, then the nodes of the front half, then those of the back half; both halves are non-empty and together are the sorted triangles |
| KdTrees.SubdivideLeafIff | scripts/blender/export_level.py:640-668 | every node holds triangles, and a node is a leaf (offset ≥ 0) exactly when it holds at most `tpl` of them |
| KdTrees.SubdivideLeaves | scripts/blender/export_level.py:650-668 | the leaves together hold exactly the input triangles, as a multiset |
| KdTrees.SubdivideOffsets | scripts/blender/export_level.py:650-668 | each leaf's offset is its first triangle's index in the concatenation of all leaves' triangles, counted from the starting offset |
| KdTrees.SubdivideSkips | scripts/blender/export_level.py:665-668 | every inner node is followed by exactly its minus-offset descendants, and their leaves hold exactly the node's triangles |
| KdTrees.SubdivideNodeCount | scripts/blender/export_level.py:644-668 | with one triangle per leaf, n triangles give 2n - 1 nodes |
| KdTrees.Subdivide | scripts/blender/export_level.py:650-668 | `subdivide` as written, sorting along the `ChooseAxis` axis: a non-empty node list whose leaves are exactly the nodes of at most `tpl` triangles, whose leaves together hold the input, whose leaf offsets index the concatenation of the leaves from the starting offset, and whose inner offsets skip exactly each node's descendants |
| KdTrees.BuildTree | scripts/blender/export_level.py:644-647 | a tree exists exactly for a non-empty triangle list (the source indexes the first triangle) and has at least one node |
| KdTrees.MakeColMesh | scripts/blender/export_level.py:679-688 | for a non-empty list the mesh has 2n - 1 nodes, its triangle list, gathered from the leaves in node order, is a permutation of the input, and each leaf's offset indexes its triangle in that list |
| KdTrees.ColFileSizeOf | scripts/blender/export_level.py:696-702 | the file size written for n triangles is 20 + 32·(2n - 1) + 52·n = 116n - 12 |
| KdTrees.EdgeHash | scripts/blender/export_level.py:758-762 | the hash is missing exactly for a loop (the function falls through and returns None) |
| KdTrees.EdgeHashSymmetric | scripts/blender/export_level.py:758-762 | the hash does not depend on the order of the two vertices |
| KdTrees.EdgeHashDecodes | scripts/blender/export_level.py:758-762 | for vertices below the count, dividing the hash by the count gives the smaller vertex and the remainder the larger |
| KdTrees.EdgeHashInjective | scripts/blender/export_level.py:758-762 | two edges between vertices below the count have the same hash only when they join the same two vertices |
| KdTrees.SortForSplitAsWritten | scripts/blender/export_level.py:655-663 | the as-written ordering (sorting along the axis the `bmax[2] - bmax[2]` test picks) keeps the count and multiset of triangles |
| KdTrees.SubdivideAsWrittenLayout | scripts/blender/export_level.py:650-668 | `subdivide` exactly as written, with the axis typo, still gives the layout: leaves exactly the nodes with at most `tpl` triangles, leaves holding the input, leaf offsets indexing the leaf concatenation, and inner offsets skipping exactly their descendants |
| SimpleColMeshes.GetIndex | scripts/blender/make_col_mesh.py:34-41 | the result is the first and only vertex with v's key; a known key leaves the mesh as it was; a new key is appended at index = old length; the edges never change |
| SimpleColMeshes.AddEdge | scripts/blender/make_col_mesh.py:43-48 | the old vertices stay a prefix; when both keys are equal the edges are unchanged; otherwise exactly one edge is appended, from e0's vertex to e1's vertex; no loop is ever stored |
| SimpleColMeshes.AddEdgeTwice | scripts/blender/make_col_mesh.py:43-48 | adding the same edge again leaves the vertex table alone and appends a duplicate edge: nothing merges duplicates |
| SimpleColMeshes.CreateStep | scripts/blender/make_col_mesh.py:59-78 | one face keeps the loop invariant: each edge was added by the face recorded for it, with matching end keys in the cut's orientation |
| SimpleColMeshes.CreateFrom | scripts/blender/make_col_mesh.py:50-80 | after all faces, the faces that added an edge are exactly those cut at two points with different keys; each added one edge, in face order, whose ends carry the keys of its oriented cut; there are at most as many edges as faces |

## Left out

- Rendering, GL, ImGui, SDL and audio: `Track::init`, `Track::draw`, the vertex buffer upload, `Player::init`, `Player::draw`, the animation blending, the model draw calls in `Pickup::draw`, the camera and HUD in src/game.cpp, and src/main_sdl2.cpp. These are foreign calls with no logic to state.
- compile_assets.py and scripts/blender/export_model.py: file timestamps, subprocesses and Blender scene plumbing.
- Everything that needs Blender's `bpy`: `getSceneData`, the top-level export, `ColMesh2D.createFrom`'s scene walk and mesh transform, `write`, `printCode`, `COLMesh.write`, and the panel, operator and `createMesh` of make_col_mesh.py. The face loop of make_col_mesh's `createFrom` is modelled on faces given as data.
- The composition of `rebuildVertexList` and `buildNavGrid` inside export_level's `createFrom` (lines 538-544), and the spawn-point reachability message it prints (lines 482-486). Both operations are modelled on their own.
- Byte emission through `struct`: only sizes, counts and layout are modelled, not the bytes.
- Trigonometry, square roots, `normalize` and `length` are oracle fields with only the facts the code relies on. Nothing numeric is proved about them, including the normalised plane in `traceTriangleZ`, the bicycle wheel update and `off_track_y_angle`.
- Floating-point rounding: reals stand in for floats. Blender's `round(x, 3)` key is an arbitrary function passed in as `round3`.
- Python's `int()` is modelled as truncation toward zero.
- Python's sort stability is not stated; the sorts are only stated to be ordered permutations.
- `onGasTank`, `onOilSpill` and `respawn` are declared but their bodies are not part of this model. Pickups report which callback fires, as a value.
- The `ColMesh2D` lists are class attributes shared by every instance in both tools. The model keeps one instance.
- TrackGen.Generate: the random draws are passed in as at least 50 records, one per loop iteration; the loop is proved to run at most 50 times, so no run is excluded.
- TrackGen.Generate: does not state that each direction has unit length. That is a fact about the `normalize` oracle, not about the generator.
- TrackQuery.TraceZ: requires a non-empty chain. The source computes `segments.size() - 1` on an unsigned size, which wraps for an empty track.
- TrackQuery.FindNearestSegment: requires a non-empty chain, for the same unsigned wrap.
- NavGrids.BuildNavGrid: requires at least one spawn point. The source reads `spawn_points[0]`, which fails on an empty list.
- KdTrees.BuildTree: requires `triangles_per_leaf >= 1`. With 0, `subdivide` keeps splitting single triangles and never stops.
- TrackMesh.BuildIndices: for a chain of no segments it returns no indices. The source reserves `(segments.size() - 1)*3*6` entries on an unsigned size, which wraps and fails; the generator never yields an empty chain.
- Mdl.Aabb: the start values are `±sys.float_info.max` as reals. The source stores them in a single-precision mathutils `Vector`, where they become ±infinity, so the box of an empty vertex list is infinite there.
- KdTrees.MakeTriangle: states the positions and the box but nothing about the normal or the plane distance, which come from the `normalize` oracle.

## Findings

| source | as written | input that shows it | evidently intended | confidence | as-written member | corrected member |
|---|---|---|---|---|---|---|
| src/track.cpp:242-252 | when the pivot reaches 0 on a Below probe, `if (pi == 0) break;` leaves the loop with `li = 0` and `ui = 1`, so neither `ui == 0` nor `li >= size-1` holds and `assert(false)` is reached | a chain of 2 segments and a point behind both start rails of the first segment; with every probe Below, the same happens for chains of 47 to 50 segments | a point behind the first segment gets the first segment | not executed; high | TrackQuery.FindNearestAssertReachable | TrackQuery.FindNearestSegmentFixed |
| scripts/blender/export_level.py:357-396 | the `i0 == i1` test runs before the collinear merges, and the merges can make `i0` and `i1` equal, so an edge from a vertex to itself is appended | `addEdge(p, q)` and then `addEdge(q, p)` on an empty mesh leaves the single edge `(0, 0)` | the edge list never holds an edge from a vertex to itself | not executed; medium, because `area_tri` is modelled on exact reals, with the threshold on the squared cross product | ColMeshes.AddEdgeReverseMakesLoop | ColMeshes.AddEdgeFixed |
| scripts/blender/export_level.py:659 | the z test reads `bmax[2]-bmax[2]`, which is always 0, so an ordered box is never split along z | the box from (0,0,0) to (1,1,10) is split along x | split along the longest axis, z included | not executed; high | KdTrees.ChooseAxisMissesZ | KdTrees.ChooseAxisFixed |
| scripts/blender/model_mdl.py:280-303 | `MDLTriangleChunk.getSize` leaves out the 4-byte index count that `write` emits, so the header's `file_size` is 4 bytes short per triangle chunk | any model with one triangle chunk | `file_size` equals the bytes written | not executed; medium, because the loader is not part of this model | Mdl.FileSizeVersusWritten | Mdl.FixedFileSizeMatches |

The kd build of `KdTrees.Subdivide`, `KdTrees.BuildTree` and `KdTrees.MakeColMesh` follows the code as written and sorts along `KdTrees.ChooseAxis`. The corrected order `KdTrees.SortForSplitFixed` sorts along `KdTrees.ChooseAxisFixed`. The layout lemmas (`KdTrees.SubdivideLeaves`, `KdTrees.SubdivideOffsets`, `KdTrees.SubdivideSkips`) take the order as a parameter, so they hold for the corrected build as well.
