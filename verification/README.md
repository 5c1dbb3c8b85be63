# blockAlpha voxel engine core, modelled in Dafny

blockAlpha is a small voxel sandbox in Java. A player walks through a grid of
unit cubes ("blocks"). The player can select a block by looking at it, and can
save the scene to a text file and load it back. This project models the
sequential core of the engine and proves properties about it:

- **Block record and save-line codec.** This covers `Block`'s constructor and
  `toString`, and `EngineRuntime.saveState`/`loadState`/`parseLine`.
  - Text is `seq<char>`.
  - The regular-expression search (`find` with a lazy `.*?`), `substring`,
    `String.split` (limit 0, trailing empty pieces dropped) and
    `Integer.parseInt` are written out.
  - Errors are `Result` values instead of exceptions. *(wrappers.dfy,
    java_ints.dfy, java_text.dfy, blocks.dfy, save_codec.dfy)*
- **Block store.** The engine's `blocks` map is a `map<Cell, Block>`. This
  covers construction from an array (`setBlocks`), `checkCord`, the 5×5×5
  `checkNearest` scan, and `generateRndBlocks` with its random draws as
  input. *(block_store.dfy)*
- **Ray selection** (`rayTrace`). The float stepping is abstracted into the
  sequence of sampled positions. The `(int)` cast is modelled exactly, and
  so is the stop at the first occupied sample. *(ray_trace.dfy)*
- **Input controller** (`RTController`). This covers the `run`
  preconditions, `isRunning`/`toClose`, the lock/unlock debounce of
  single-press commands, and `Input`'s command set over an abstract keyboard
  snapshot. Sequences of calls are covered too. *(commands.dfy,
  controller.dfy)*
- **Avatar speed tiers and movement** (`Model.handleInput`), in exact real
  arithmetic. *(vectors.dfy, avatar.dfy)*
- **Mesh buffers** (`DataTransformation`). This covers the append-only
  vertex and index arrays, their counters and the index pattern of each
  quad. It also covers one quad per visible face, two quads per debug line,
  and `update`/`getCords`/`getIndices`. The class's mutable fields are an
  immutable `Buffers` value that each operation takes and returns, so every
  contract relates the buffers before and after the call. *(mesh.dfy)*
- **Texture pixel repacking.** The constructor of `Texture` turns ARGB `int`
  pixels into RGBA bytes and flips the rows vertically. *(texture.dfy)*

Java `int` values are the subset type `int32`. Wrap-around is written out
wherever a sum can leave the `int` range, as in the `checkNearest` scan. The
mesh counters (`sizeC`, `sizeI`, `verticesCount`) are plain integers: they
stay below `translationSize` + 32, because `System.arraycopy` throws before
any of them could approach 2^31. Java's `/` and `%` truncate, and the model
defines them that way.

Two facts about the code shape the model:

- A ray sample becomes a cell through the `(int)` cast, which truncates
  toward zero, so −0.3 lands in cell 0 (`RayTrace.CellOfTruncates`,
  `JavaInts.TruncIsNotFloor`).
- `sideRender` is never changed after construction, so it stays all `true`
  and every block emits six quads.

## Model

| member | source | states |
|---|---|---|
| Blocks.NewBlock | src/main/java/engine/Block.java:38-44 | The constructor fails (IllegalArgumentException) exactly when the side-id array does not have six entries. Otherwise the block keeps the given cord, id and side ids unchanged, and all six faces are marked visible. |
| Blocks.ToLine | src/main/java/engine/Block.java:52-53 | The save text of a block contains no line terminator, whatever its coordinates and ids, so one block is one line of the file. |
| SaveCodec.FieldsLineOneLine | src/main/java/engine/Block.java:52-53 | Every line in the save layout, with any number of coordinates and side ids, is a single line that the file reader returns unsplit. |
| SaveCodec.ParseToLine | src/main/java/engine/EngineRuntime.java:79-86 | Parsing the save line of any block with six side ids gives back the same cord, id and side ids, for every int value including negatives. The faces come back all visible. |
| SaveCodec.ParseFieldsLine | src/main/java/engine/EngineRuntime.java:79-86 | A save-format line with a non-empty list of coordinates and side ids parses to the block it spells when there are exactly 3 coordinates and 6 side ids. Any other count is rejected as "state corruption". |
| SaveCodec.TwoCoordinatesRejected | src/main/java/engine/EngineRuntime.java:83 | A line with only two coordinates is rejected as state corruption, and a load of such a file leaves the current map unchanged while the error propagates. |
| SaveCodec.ParseLine | src/main/java/engine/EngineRuntime.java:96-107 | A line without a `cord=[…]` match fails with the "Something wrong with state data" error. A line without an `id=…,` or `sideIds=[…]` match fails. A successful parse yields a block with six side ids and all faces visible. |
| SaveCodec.ParseField | src/main/java/engine/EngineRuntime.java:97-98 | When the pattern has no match, the field fails with the pattern-not-found error. |
| SaveCodec.CutField | src/main/java/engine/EngineRuntime.java:100 | A substring range outside the matched group fails, as `String.substring` throws. |
| SaveCodec.ParseIntsMeaning | src/main/java/engine/EngineRuntime.java:102-105 | The parsed array has one value per token and each value is that token's `Integer.parseInt`. When a token is not an integer, the result is a NumberFormat error naming a token that does not parse. |
| SaveCodec.FieldRoundTrip | src/main/java/engine/EngineRuntime.java:96-107 | If a line holds `open`, a prefix, the joined numerals, a suffix and the closing character, and no earlier `open` occurs, then `parseLine` with that field's offsets returns exactly the numerals' values. |
| SaveCodec.PutParsedFacts | src/main/java/engine/EngineRuntime.java:78-87 | Installing the parsed lines succeeds exactly when every line parsed. The result is then the parsed blocks put in file order. Otherwise the error is that of the first failing line. |
| SaveCodec.LoadFacts | src/main/java/engine/EngineRuntime.java:77-88 | Loading succeeds exactly when every line parses. The new map is then keyed by coordinate and holds exactly the parsed coordinates. A coordinate repeated in the file keeps its last line, and every loaded block has all faces visible. On failure the error is that of the first bad line. |
| SaveCodec.LoadState | src/main/java/engine/EngineRuntime.java:69-94 | The live map is replaced exactly when the file was read and every line parsed, and then by the loaded map. Otherwise the previous map is kept. A file that cannot be opened is the caught IOException. A parse error propagates, and so does text that is not valid UTF-8 (the `UncheckedIOException` of `Files.lines`, which the `catch (IOException)` does not catch). |
| SaveCodec.SaveState | src/main/java/engine/EngineRuntime.java:56-60 | The saved text splits back into exactly one line per stored block, and line i is the save line of the i-th block of the iteration order. |
| SaveCodec.SaveLoadRoundTrip | src/main/java/engine/EngineRuntime.java:56-88 | Loading what was saved gives back the same map, with every face marked visible again. A map whose faces are all visible is restored exactly. |
| SaveCodec.LoadStateOfSaved | src/main/java/engine/EngineRuntime.java:69-94 | When `loadState` reads a file written by `saveState`, it installs exactly the saved map, whatever the map was before. |
| SaveCodec.PutSavedLines | src/main/java/engine/EngineRuntime.java:58-60 | Parsing and installing the saved lines of a sequence of blocks puts the same blocks, with faces refreshed, in the same order. |
| JavaInts.ParseIntToString | src/main/java/engine/EngineRuntime.java:104 | `Integer.parseInt` reads back the decimal text of every int, including the minimum value. |
| JavaInts.IntToString | src/main/java/engine/Block.java:52 | The decimal text of an int is non-empty, is made only of digits and a minus sign, and starts with '-' exactly for negatives. |
| JavaInts.ParseInt | src/main/java/engine/EngineRuntime.java:104 | `Integer.parseInt` succeeds exactly on a numeral (an optional sign followed by at least one digit) whose value lies in the `int` range, and then returns that value. The sign decides the sign of the result. |
| JavaInts.ParseIntRange | src/main/java/engine/EngineRuntime.java:104 | The decimal text of any integer parses exactly when the integer fits in an `int`, and then to that integer. |
| JavaInts.ParseIntCases | src/main/java/engine/EngineRuntime.java:104 | `+7` and `007` parse to 7 and `-0` to 0; the empty text, a lone sign and `1 2` are rejected. |
| JavaInts.NumeralOfIntToString | src/main/java/engine/EngineRuntime.java:104 | The decimal text of an integer is a numeral whose value is that integer. |
| JavaText.SplitJoin | src/main/java/engine/EngineRuntime.java:101 | Splitting the separator-joined text of non-empty tokens without blanks gives back exactly those tokens. |
| JavaText.FindLeftmost | src/main/java/engine/EngineRuntime.java:97-99 | `Matcher.find` returns the leftmost match. When no earlier position starts the opening text and a match starts at k, the match found is the one at k. |
| JavaText.FindFrom | src/main/java/engine/EngineRuntime.java:97-99 | The match found starts at the first position where the lazy pattern matches, and no match exists when none is returned. |
| JavaText.Substring | src/main/java/engine/EngineRuntime.java:100 | `substring` succeeds exactly for 0 <= begin <= end <= length and returns the characters in that range. |
| JavaText.DropTrailingEmpty | src/main/java/engine/EngineRuntime.java:101 | `split` drops exactly the trailing empty pieces. What remains is a prefix that does not end in an empty piece. |
| JavaText.LinesOfTerminated | src/main/java/engine/EngineRuntime.java:58-59 | Reading back lines each followed by '\n' gives exactly those lines, when none contains a line terminator. |
| BlockStore.SetBlocks | src/main/java/engine/EngineRuntime.java:41-47 | Construction fails exactly when some element is null. Otherwise the map is keyed by each block's own cord and holds exactly the given coordinates, and a later block with the same cord replaces an earlier one. |
| BlockStore.PutAllFacts | src/main/java/engine/EngineRuntime.java:45 | Putting blocks one by one adds exactly their coordinates, keeps the last block for each coordinate, leaves other entries unchanged and keeps the map keyed by cord. |
| BlockStore.PutAllEnumeration | src/main/java/engine/EngineRuntime.java:58 | Putting the blocks of an enumeration of a map into an empty map rebuilds that map. |
| BlockStore.CheckCord | src/main/java/engine/EngineRuntime.java:128-130 | In a map keyed by coordinate, `checkCord` is true exactly when some stored block has that coordinate. |
| BlockStore.CheckNearest | src/main/java/engine/EngineRuntime.java:132-145 | The triple loop reports exactly the occupied cells among the 125 scanned cells, in dx, dy, dz order. |
| BlockStore.OccupiedMembers | src/main/java/engine/EngineRuntime.java:139-141 | A cell is reported exactly when it is scanned and occupied. |
| BlockStore.NearCellsBox | src/main/java/engine/EngineRuntime.java:134-138 | Away from int overflow, the scanned cells are exactly those within 2 of the truncated position on every axis. |
| BlockStore.GenerateRndBlocks | src/main/java/engine/EngineRuntime.java:109-126 | With a positive count and a non-positive bound it fails, as `nextInt` throws. Otherwise the cells of the map are exactly the drawn cells, and all coordinates lie in [0, bound). When two draws hit the same cell, the later draw's block is the one kept. There is at most one block per draw, each with id 0, six side ids in [0, 6) and all faces visible. |
| BlockStore.DrawnCells | src/main/java/engine/EngineRuntime.java:112-124 | Putting the drawn blocks one after another yields a map whose cells are exactly the drawn cells, each holding the block of the last draw of that cell. |
| BlockStore.CordsCardinality | src/main/java/engine/EngineRuntime.java:123-125 | A sequence of blocks covers at most as many coordinates as it has blocks, so generation never yields more blocks than draws. |
| RayTrace.Trace | src/main/java/engine/EngineRuntime.java:147-170 | The loop over the samples computes exactly the selection rule `Select` over the samples' cells. |
| RayTrace.Select | src/main/java/engine/EngineRuntime.java:153-168 | Both selections are set or both are clear. A selection is an occupied sample whose immediately preceding sample is unoccupied and passes the camera-equality guard. With no occupied sample, both are clear. |
| RayTrace.SelectFirstHit | src/main/java/engine/EngineRuntime.java:158-166 | When sample k is the first occupied one, something is selected exactly when k > 0 and sample k−1 passes the guard. The selection is then sample k, with sample k−1 as the last cord. |
| RayTrace.StartInsideBlock | src/main/java/engine/EngineRuntime.java:160-165 | If the very first sample is occupied, nothing is selected. |
| RayTrace.FirstHit | src/main/java/engine/EngineRuntime.java:157-168 | The loop stops at the first occupied sample, and no earlier sample is occupied. |
| RayTrace.CellOfTruncates | src/main/java/engine/EngineRuntime.java:159 | The cell of (−0.3, 0.7, −1.5) is (0, 0, −1), because the `(int)` cast truncates toward zero. |
| JavaInts.TruncIsNotFloor | src/main/java/engine/EngineRuntime.java:159 | Truncation and floor agree exactly on non-negative values and integers. For −0.3 they differ (0 versus −1). |
| JavaInts.IntCast | src/main/java/engine/EngineRuntime.java:134 | The `(int)` cast of a float truncates toward zero and saturates at the int range. |
| JavaInts.Wrap | src/main/java/engine/EngineRuntime.java:134 | Int addition agrees with exact addition modulo 2^32 and is exact inside the int range. |
| Controller.Start | src/main/java/controller/RTController.java:41-50 | `run` throws when the engine or the display is missing, the engine first. Otherwise it starts with an empty command set and all five single-press commands unlocked. |
| Controller.ToClose | src/main/java/controller/RTController.java:107-109 | `toClose` makes `isRunning` false and changes nothing else. |
| Controller.KeyHandler | src/main/java/controller/RTController.java:146-152 | After the handler, the command is unlocked exactly when its key is released. It is emitted exactly when it was already emitted or was unlocked with its key pressed. Nothing else changes. |
| Controller.Input | src/main/java/controller/RTController.java:159-187 | Q stops the controller and otherwise `isRunning` is kept. SPEED_1/SPEED_01 follow Shift and SPEED_0025 follows Ctrl. Movement commands are emitted exactly when their key is down. A single-press command is emitted exactly when it was unlocked and its key is down, and after the call it is unlocked exactly when its key is up. |
| Controller.FileOps | src/main/java/controller/RTController.java:167-171 | Z and X save and load `state1`, and C and V save and load `state2`. Each operation is triggered exactly when its key is down, and a save of `state1` comes before its load in the same call. |
| Controller.InputCall | src/main/java/controller/RTController.java:159-171 | With the throwing loads given, the call completes exactly when no pressed load throws, and then equals `Input`. When a load throws, the call ends there: the command set is the fresh empty one, every lock is kept, Q has already been handled, and the file operations are those before the throwing load and the load itself. |
| Controller.CorruptLoadDropsCommands | src/main/java/controller/RTController.java:159-171 | With X down and `state1` corrupt, the call emits no command, not even a speed tier, keeps the locks, and never saves or loads `state2`. |
| Controller.FreshCommandSet | src/main/java/controller/RTController.java:160 | The commands a call emits, and everything else it returns, do not depend on the previous call's command set, because each call starts from an empty set. |
| Controller.OneBaseSpeed | src/main/java/controller/RTController.java:173-174 | Exactly one of SPEED_1 and SPEED_01 is emitted on every call. |
| Controller.InputIsStep | src/main/java/controller/RTController.java:159-187 | `Input` equals an independent closed-form step: running while Q is up, single-press locks given by the key states, and the command table. |
| Controller.RunStep | src/main/java/controller/RTController.java:159-187 | The k-th state of a run of `Input` calls is the step from the state before it. |
| Controller.RunCall | src/main/java/controller/RTController.java:146-152 | Within a run, after call k a single-press command is unlocked exactly when its key was up. It was emitted only if its key was down and it was unlocked before the call. |
| Controller.ReleaseBetweenEmissions | src/main/java/controller/RTController.java:147-151 | Between two emissions of a single-press command there is a call that saw its key released. |
| Controller.HeldKeyFiresOnce | src/main/java/controller/RTController.java:147-151 | While a key is held through a stretch of calls, its single-press command is emitted at most once in that stretch. |
| Controller.StopsForGood | src/main/java/controller/RTController.java:107-109 | Once a run has stopped, every later state is stopped. |
| Controller.QuitIsFinal | src/main/java/controller/RTController.java:162-165 | After a call that sees Q pressed, the controller is not running in that or any later state. |
| Avatar.HandleInput | src/main/java/engine/Model.java:30-40 | The new speed is 0.025 when SPEED_0025 is present, else 0.1 when SPEED_01 is, else 1 when SPEED_1 is, else unchanged. The position moves by the old speed along the view direction (forward minus backward) and sideways (right minus left). |
| Avatar.Move | src/main/java/engine/Model.java:31-34 | The four movement calls add up to one displacement: the view direction times speed × (forward − backward) plus the side direction times speed × (right − left). |
| Avatar.StandStill | src/main/java/engine/Model.java:30-40 | Without movement commands the position does not change. |
| Avatar.OppositesCancel | src/main/java/engine/Model.java:31-34 | Forward with backward, and left with right, cancel out. |
| Avatar.TierAppliesNextCall | src/main/java/engine/Model.java:31-38 | A speed command moves the avatar with the old speed in its own call and with the new speed from the next call on. |
| Avatar.SpeedFromKeys | src/main/java/engine/Model.java:36-38 | If `Input`'s command set were passed to `handleInput`, the speed would be 0.025 with Ctrl, else 1 with Shift, else 0.1, and the previous speed would never survive. No live code makes this call: the one call site, EngineRuntime.java:193, is commented out. |
| Mesh.NewBuffers | src/main/java/graphics/DataTransformation.java:36-40 | A new transformer has capacity `translationSize` for both arrays and holds no quads. |
| Mesh.Reset | src/main/java/graphics/DataTransformation.java:92-96 | `reset` zeroes both sizes and the vertex count, so the buffers hold no quads. It keeps the raw arrays. |
| Mesh.Transfer | src/main/java/graphics/DataTransformation.java:82-87 | The copy fits exactly when both new sizes are within capacity. It then appends at the current sizes, grows each size by the length copied and leaves earlier contents untouched. An overflow leaves the sizes unchanged. |
| Mesh.TransferSquare | src/main/java/graphics/DataTransformation.java:114-135 | The vertex count grows by 4 even on overflow. On success the quad's 32 floats and the indices old count + {0, 2, 1, 0, 3, 2} are appended after the unchanged earlier contents. |
| Mesh.SquareHolds | src/main/java/graphics/DataTransformation.java:123-134 | Adding a quad to buffers holding q quads fits exactly when 32(q+1) floats fit. The buffers then hold q+1 quads. |
| Mesh.AllHolds | src/main/java/graphics/DataTransformation.java:114-135 | Transferring a list of quads fits exactly when all floats fit. The buffers then hold the old quads followed by the new ones, with sizes 32q, 6q and vertex count 4q. |
| Mesh.LiveIndicesBelow | src/main/java/graphics/DataTransformation.java:129-133 | Every index in `indicesRaw[0..sizeI)` is non-negative and below `verticesCount`. |
| Mesh.IndicesBelow | src/main/java/graphics/DataTransformation.java:129-132 | The index pattern of n quads refers only to vertices 0 .. 4n−1. |
| Mesh.BlockQuadCount | src/main/java/graphics/DataTransformation.java:168-173 | A block emits one quad per `true` entry of `sideRender`, six for a freshly built block. |
| Mesh.VisibleFaceDrawn | src/main/java/graphics/DataTransformation.java:168-173 | Every visible face of a block is among its emitted quads. |
| Mesh.DrawnFaceVisible | src/main/java/graphics/DataTransformation.java:168-173 | Every emitted quad is the quad of some visible face. |
| Mesh.VisibleFaces | src/main/java/graphics/DataTransformation.java:168-173 | The faces emitted are visible ones, in increasing face order 0..5. |
| Mesh.FaceQuadOf | src/main/java/graphics/DataTransformation.java:168-173 | Face f's quad carries `sideIds[f]` as its texture id. |
| Mesh.FaceNormalInward | src/main/java/graphics/DataTransformation.java:119-121 | For each face of a block, the normal computed from the first three corners is twice the vector from the face centre to the block centre. |
| Mesh.LineQuads | src/main/java/graphics/DataTransformation.java:141-149 | A debug line emits exactly two quads with texture id 17, the second being the first with its corners reversed. |
| Mesh.LineTile | src/main/java/graphics/DataTransformation.java:115-116 | Texture 17 sits in atlas column 1, row 1: the column is `id % 16` and the row is `id / 16`. |
| Mesh.Update | src/main/java/graphics/DataTransformation.java:45-55 | `update` fits exactly when all block quads then all line quads fit. The buffers then hold exactly that scene: `getCords` returns its floats, and `getIndices` returns the index pattern of that many quads. |
| Mesh.GetHeld | src/main/java/graphics/DataTransformation.java:61-75 | `getCords` and `getIndices` return exactly the live prefixes: the floats of the quads held and their index pattern. Every returned index names a vertex inside the returned float data. |
| Mesh.Splice | src/main/java/graphics/DataTransformation.java:83-84 | `System.arraycopy` keeps the length and the elements before the copy position, and places the copied elements from that position. The elements after the copied range are unchanged too. |
| Texture.Repack | src/main/java/graphics/Texture.java:37-48 | The loop fills exactly 4·W·H bytes, and they are the RGBA bytes of the vertically flipped pixels, row by row. |
| Texture.RepackAt | src/main/java/graphics/Texture.java:39-46 | Byte k of output pixel (h, w) is byte k of R, G, B, A of source pixel (H−1−h, w). |
| Texture.RepackRoundTrip | src/main/java/graphics/Texture.java:39-48 | Decoding the buffer and flipping back recovers every source pixel, so each pixel is read once and maps one-to-one onto a 4-byte slot. |
| Texture.PackRgba | src/main/java/graphics/Texture.java:43-46 | The four bytes R=(p>>16)&0xFF, G=(p>>8)&0xFF, B=p&0xFF, A=(p>>24)&0xFF determine the ARGB pixel: packing them back gives p. |
| Texture.RgbaPack | src/main/java/graphics/Texture.java:43-46 | Every four bytes are the RGBA bytes of some ARGB pixel, namely the one they pack to, so with `PackRgba` the conversion is a bijection. |
| Texture.FlipFlip | src/main/java/graphics/Texture.java:41 | Flipping the rows twice gives back the image. |
| Texture.FlipAt | src/main/java/graphics/Texture.java:41 | Row h of the flipped image is row H−1−h of the source. |
| Texture.DecodeEncode | src/main/java/graphics/Texture.java:43-46 | The RGBA byte stream of a pixel sequence decodes back to that sequence. |
| Texture.EncodeDecode | src/main/java/graphics/Texture.java:43-46 | Every byte stream whose length is a multiple of four is the encoding of the pixels it decodes to. |

## Left out

- I/O:
  - `FileWriter`, `Files.lines` and the printed messages are not modelled.
  - A file is its text, a failure to open it, or text that is not valid UTF-8.
  - `checkNearest` returns the cells it would print.
  - The save/load key bindings Z, X, C and V are recorded as file operations in call order; their effect on the engine is not modelled.
- Concurrency is not modelled: the engine and render threads, `ConcurrentHashMap`, `Thread.sleep`, `thread.join`, and the render thread reading `blocks` while `loadState` swaps it.
- OpenGL and GLFW are not modelled:
  - window and texture upload calls;
  - `glfwSetWindowShouldClose`;
  - the `width`/`height` fields of `Texture`;
  - the image reading and `getRGB`, so the pixels are given as ARGB ints.
- Floats are exact reals. The speed literals `0.1f` and `0.025f` and the line offset `0.001f` are written as the binary32 values they round to; float rounding in arithmetic is not modelled.
- The ray's float stepping from the camera is not modelled. `Trace` takes the `rayDistance*rayPrecision` sampled positions as input.
- RayTrace.Select: the guard `!lastCheckedPos.equals(camera.position)` compares a `Vector3i` with a `Vector3f`. It is a parameter, `sameAsCamera`, rather than a fixed predicate.
- `camera.orientation`, `camera.position` and `camera.setPos` belong to the camera, which is not part of this model. The sideways direction `normalize(orientation × up)` is a parameter, because normalising takes a square root.
- `java.util.Random` is replaced by its draws, given as input.
- The order of `blocks.values()` is a parameter: an enumeration of the map. This applies to `saveState`, `update` and the array returned by `generateRndBlocks`, whose result is modelled as the map before `toArray`.
- SaveCodec.ParseLine: text is a sequence of Unicode scalar values, so offsets and lengths count code points where Java counts UTF-16 units. The model agrees with Java only on lines whose characters all lie in the Basic Multilingual Plane. A line with a supplementary character next to a `substring` cut can parse here but throw `NumberFormatException` in Java. Saved lines are ASCII, so the save/load round trip is unaffected.
- SaveCodec.CutField: offsets count code points, not UTF-16 units, as for `SaveCodec.ParseLine`.
- JavaText.Substring: indices count code points, not UTF-16 units, so it matches Java's `substring` only on text without supplementary characters.
- BlockStore.SetBlocks: a null array, or a block whose cord is null, throws `NullPointerException` in Java. Neither can be represented here. Only a null element is modelled, as `None`.
- Blocks.NewBlock: a null `sideIds` array throws `NullPointerException` in Java and cannot be represented here.
- Blocks.NewBlock: the Java block stores the caller's `sideIds` array without copying it (Block.java:42), so the two share one array. Values here are immutable and cannot express that aliasing. No code of the engine writes to `sideIds` after construction, so nothing observable is lost.
- Controller.Input: describes a call that completes. A `loadState` that throws ends the call early; `Controller.InputCall` models that, with the set of files whose load throws given as input.
- Controller.FileOps: lists the operations a completing call performs. After a throwing load the later ones are skipped, as `Controller.InputCall` states.
- Controller.Run: sequences of calls (`Run`, `RunStep`, `RunCall` and the lemmas about them) assume every call completes. A throwing load propagates out of the render loop and ends it.
- JavaInts.ParseInt: `Character.digit` also accepts non-ASCII Unicode digits. Only ASCII digits are modelled, which is all `Integer.toString` produces.
- `engine.Line` is not part of this model. A debug line is its start and end points, and `EngineRuntime.lines` is a parameter of `Update`.
- `controller.Commands` is not part of this model. Its constants are those `RTController` and `Model` use.
- The `Vector3f` copies made by the `Model` constructor and `getPosition` are not modelled, since values are immutable here.
- Mesh.TransferSquare: when `System.arraycopy` throws, the exception propagates out of `update`. Here it is an `Overflows` outcome that keeps the sizes. The model does not say what was partly copied.
- `indicesSize` is `sizeI` of the buffers, which every buffer contract above states.
- Vertex positions, texture coordinates and normals are exact reals, built by `Vertex`, `Corner` and `QuadCords`. Beyond face orientation (Mesh.FaceNormalInward) and the atlas cell (Mesh.LineTile), nothing is proved about their values.
