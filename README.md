# StabiLink core, modelled in Dafny

This project models three parts of the StabiLink landing site:

- **Network canvas** (`network_canvas.dfy`, module `NetworkCanvas`). This is the animated field of nodes behind the page.
  - It seeds `floor(width*height/15000)` nodes from random draws.
  - Every frame it clears the canvas. It then joins each pair of nodes closer than 100 px, and joins each node to the pointer when it is closer than 150 px. It draws one dot per node. Finally it moves every node by its velocity, bounces it off the canvas edges and clamps it into the canvas.
  - The component is the class `Canvas`, with its nodes in an `array<Node>`.
  - Each method is proved equal to a pure function of the old state:
    - `Spawned` describes a new field of nodes.
    - `Frame` describes the draw list of a frame.
    - `Moved` describes the field after the motion step.
  - The properties of the component are proved about those functions.
- **In-memory store** (`storage.dfy`, module `Storage`). This is the server's `MemStorage`.
  - It holds a users table and a subscriptions table, both keyed by id.
  - It is seeded with 11950 numbered subscriptions.
  - It can look a user up by id or by name, create users and subscriptions, and count the subscriptions.
  - The class keeps the JavaScript `Map`s as Dafny `map`s, plus the insertion order of the users map.
  - Lookup by name is proved to return the earliest inserted user with that name.
- **Typewriter text** (`typewriter.dfy`, module `Typewriter`). This is the headline that types itself one character per timer tick, then hides its cursor.
  - The component state and its waiting timer callbacks form the datatype `TypeState`.
  - The three callbacks (typing tick, cursor hide, and a re-render with new props) are transition functions.
  - The class `TypewriterText` has one method per callback, each proved to perform its transition.

Inputs the source takes from its environment are parameters of the model:

- the values `Math.random` returns;
- the ids `randomUUID` returns;
- the timestamps `Date` gives;
- the canvas and pointer geometry the DOM reports.

Consequences of the code that the model keeps:

- **A theme change re-seeds the field.** The canvas effect depends on `[theme]`, and each run calls `resizeCanvas`, which calls `initNodes`. Node positions are therefore not kept across a theme change. A render with the same theme does not re-run the effect, so nodes, size and pointer stay as they are. `Canvas.ChangeTheme` models both cases.
- **The pointer never reaches the canvas in the page as written.** The `mousemove` listener is registered on the canvas itself (network-canvas.tsx:120), but the canvas carries the `pointer-events-none` class (network-canvas.tsx:134), so the browser delivers no pointer events to it. The stored pointer therefore stays at its initial (0, 0). Pointer links then only join nodes within 150 px of the top-left corner. The model keeps `HandleMouseMove` as the code defines it, so that the pointer logic is stated for any position.
- **The spawn ranges are half-open.** With `Math.random()` in `[0, 1)` the code yields `vx, vy` in `[-0.25, 0.25)` and a radius in `[1, 3)`. Those are the ranges proved.

## Model

| member | source | states |
|---|---|---|
| NetworkCanvas.IsDark | site/client/src/components/network-canvas.tsx:49 | the theme counts as dark exactly when it is the string `"dark"` |
| NetworkCanvas.NodeColor | site/client/src/components/network-canvas.tsx:50 | the dot colour: `rgba(0, 180, 216, 0.6)` when dark, `rgba(0, 180, 216, 0.4)` otherwise |
| NetworkCanvas.LineColor | site/client/src/components/network-canvas.tsx:51 | the pair-edge colour: `rgba(0, 180, 216, 0.2)` when dark, `rgba(0, 180, 216, 0.15)` otherwise |
| NetworkCanvas.LinkColor | site/client/src/components/network-canvas.tsx:78 | the pointer-link colour: `rgba(0, 180, 216, 0.4)` when dark, `rgba(0, 180, 216, 0.3)` otherwise |
| NetworkCanvas.SpawnNode | site/client/src/components/network-canvas.tsx:36-42 | node `i` of a new field, from draws `5i .. 5i+4`: `x = r0*width`, `y = r1*height`, `vx = (r2-0.5)*0.5`, `vy = (r3-0.5)*0.5`, `radius = r4*2+1` |
| NetworkCanvas.Spawned | site/client/src/components/network-canvas.tsx:32-44 | the whole new field: `SpawnNode` for each `i` below `NodeCount(width, height)`, in push order |
| NetworkCanvas.Near | site/client/src/components/network-canvas.tsx:58-62 | two nodes are joined when their squared distance is below `100*100` |
| NetworkCanvas.NearPointer | site/client/src/components/network-canvas.tsx:73-77 | a node is joined to the pointer when its squared distance to it is below `150*150` |
| NetworkCanvas.EdgeOf | site/client/src/components/network-canvas.tsx:63-68 | the edge stroke from node `i` to node `j`: their positions, the given colour, width 1 |
| NetworkCanvas.LinkOf | site/client/src/components/network-canvas.tsx:78-83 | the pointer-link stroke from node `i` to the pointer: the given colour, width 2 |
| NetworkCanvas.PairEdges | site/client/src/components/network-canvas.tsx:57-70 | the inner loop of row `i` up to `k`: an edge `(i, j)` for each `j` from `i+1` below `k` with `Near`, in increasing `j` |
| NetworkCanvas.PointerLink | site/client/src/components/network-canvas.tsx:73-84 | the pointer link of node `i` when it is `NearPointer`, and nothing otherwise |
| NetworkCanvas.Links | site/client/src/components/network-canvas.tsx:56-85 | rows `0 .. n-1` of the connection loop: each row's pair edges in the line colour, then its pointer link in the link colour |
| NetworkCanvas.Circles | site/client/src/components/network-canvas.tsx:88-92 | the dots of nodes `0 .. n-1` in order, at each node's position with its radius |
| NetworkCanvas.Frame | site/client/src/components/network-canvas.tsx:46-92 | the draw list of a frame: the clear, then `Links` of all nodes, then `Circles` of all nodes in the node colour |
| NetworkCanvas.Moved | site/client/src/components/network-canvas.tsx:94-105 | the field after the motion step: `StepNode` applied to every node, in place |
| NetworkCanvas.NodeCount | site/client/src/components/network-canvas.tsx:33 | the node count is `floor(width*height/15000)`: `count*15000 <= width*height < (count+1)*15000`, and it is 0 exactly when the area is below 15000 |
| NetworkCanvas.SpawnNodeRange | site/client/src/components/network-canvas.tsx:36-42 | with draws in [0, 1) a new node has `0 <= x < width`, `0 <= y < height`, `vx, vy` in [-0.25, 0.25) and radius in [1, 3) |
| NetworkCanvas.SpawnedFacts | site/client/src/components/network-canvas.tsx:32-44 | a reseeded field has exactly `floor(width*height/15000)` nodes, and every one lies in the spawn ranges |
| NetworkCanvas.SmallCanvasIsEmpty | site/client/src/components/network-canvas.tsx:33-35 | a canvas of area below 15000 (zero area included) gets no nodes |
| NetworkCanvas.RootThreshold | site/client/src/components/network-canvas.tsx:60-62 | for the non-negative root `r` of `d`, `r < t` holds exactly when `d < t*t`, so comparing squared distances decides the same as the `Math.sqrt` test |
| NetworkCanvas.SquaredDistance | site/client/src/components/network-canvas.tsx:58-60 | the squared distance `dx*dx + dy*dy` is never negative |
| NetworkCanvas.PairEdgesMembers | site/client/src/components/network-canvas.tsx:57-69 | the inner loop of row `i` draws an edge `(i, j)` exactly for the later nodes `j` closer than 100, each between the two node positions |
| NetworkCanvas.LinksWellFormed | site/client/src/components/network-canvas.tsx:56-85 | every line of the connection loop is a close pair edge `(i, j)` with `i < j`, or the pointer link of a node within 150 of the pointer |
| NetworkCanvas.LinksHaveEdges | site/client/src/components/network-canvas.tsx:56-70 | the connection loop draws every close pair edge `(i, j)` with `i < j` |
| NetworkCanvas.LinksHavePointerLinks | site/client/src/components/network-canvas.tsx:72-84 | the connection loop draws the pointer link of every node within 150 of the pointer |
| NetworkCanvas.CirclesAt | site/client/src/components/network-canvas.tsx:88-92 | one dot per node, in node order, at the node's position with its radius and the node colour |
| NetworkCanvas.EdgeInFrame | site/client/src/components/network-canvas.tsx:56-70 | an edge between nodes `i < j` is in the frame if and only if they are closer than 100; every edge of a frame has `i < j` (no self-edges), the edge colour and width 1 |
| NetworkCanvas.MouseLinkInFrame | site/client/src/components/network-canvas.tsx:73-84 | a pointer link for node `i` is in the frame if and only if the node is closer than 150 to the pointer; every such link ends at the stored pointer position and has width 2 |
| NetworkCanvas.LinksAreLines | site/client/src/components/network-canvas.tsx:56-85 | the connection loop draws nothing but edges and pointer links |
| NetworkCanvas.FrameLayout | site/client/src/components/network-canvas.tsx:46-105 | a frame is one clear, then the lines, then one dot per node in node order; all dots use positions from before the motion step |
| NetworkCanvas.EmptyFrame | site/client/src/components/network-canvas.tsx:46-105 | with no nodes a frame only clears the canvas |
| NetworkCanvas.PairEdgesInLoopOrder | site/client/src/components/network-canvas.tsx:57-70 | the edges of one row come out in strictly increasing partner index |
| NetworkCanvas.LinksInLoopOrder | site/client/src/components/network-canvas.tsx:56-85 | the connection loop draws lines in strictly increasing loop position: row by row, then each row's edges by partner, then its pointer link |
| NetworkCanvas.LinksJoinDistinctPairs | site/client/src/components/network-canvas.tsx:56-70 | no two edges of the connection loop join the same two nodes, in either orientation |
| NetworkCanvas.EdgesUnique | site/client/src/components/network-canvas.tsx:56-70 | no two edges of a frame join the same two nodes, so `(i, j)` and `(j, i)` never both appear |
| NetworkCanvas.StepNode | site/client/src/components/network-canvas.tsx:95-104 | after a step the node lies in `[0, width] x [0, height]`. On each axis the velocity is negated, and the position clamped to the edge crossed, exactly when the stepped coordinate left `[0, dim]`; otherwise position and velocity are the stepped ones. The radius is unchanged |
| NetworkCanvas.MotionFacts | site/client/src/components/network-canvas.tsx:94-105 | the motion step keeps the node count and every radius, and leaves every node inside the canvas whatever its prior position |
| NetworkCanvas.BounceAtLeftEdge | site/client/src/components/network-canvas.tsx:99-103 | a node at `x = 0` moving left at 0.3 stays at 0 and turns right at 0.3 |
| NetworkCanvas.Canvas.constructor | site/client/src/components/network-canvas.tsx:16-30 | on mount the pointer is at (0, 0), the canvas takes the element's size and the field is `Spawned` for it |
| NetworkCanvas.Canvas.InitNodes | site/client/src/components/network-canvas.tsx:32-44 | a fresh array replaces the field, equal to `Spawned(width, height, draws)`; everything else is unchanged; with draws in [0, 1) every node is inside the canvas |
| NetworkCanvas.Canvas.ResizeCanvas | site/client/src/components/network-canvas.tsx:26-30 | the canvas takes the element's size and is reseeded for it; theme and pointer are unchanged |
| NetworkCanvas.Canvas.ChangeTheme | site/client/src/components/network-canvas.tsx:18-129 | a render with a changed theme re-runs the `[theme]` effect: it records the theme, takes the element's size and reseeds the field (within bounds for unit draws); a render with the same theme leaves nodes, size and bounds as they are; the pointer position is kept either way |
| NetworkCanvas.Canvas.HandleMouseMove | site/client/src/components/network-canvas.tsx:110-114 | the pointer is stored relative to the canvas rectangle, unclamped; nothing else changes |
| NetworkCanvas.Canvas.PairRow | site/client/src/components/network-canvas.tsx:57-70 | the inner loop over `j > i` produces exactly `PairEdges` for row `i` |
| NetworkCanvas.Canvas.Connections | site/client/src/components/network-canvas.tsx:56-85 | the nested connection loops produce exactly `Links` of the current nodes, pointer and theme |
| NetworkCanvas.Canvas.DrawNetwork | site/client/src/components/network-canvas.tsx:46-105 | the frame drawn is `Frame` of the nodes as they were before the frame; the nodes afterwards are `Moved` of those, and all lie inside the canvas |
| Storage.DigitChar | site/server/storage.ts:30-31 | the character of a decimal digit, which reads back as that digit |
| Storage.Decimal | site/server/storage.ts:30-31 | the decimal text a template literal prints for a natural number: non-empty, digits only, no leading zero |
| Storage.DecimalValue | site/server/storage.ts:30-31 | the number a string of decimal digits denotes; the partner of `Decimal` in `DecimalRoundTrip` |
| Storage.SeedSubscription | site/server/storage.ts:28-33 | seeded subscription `i`: the drawn id, name `User {i+1}`, email `user{i+1}@example.com` and the drawn timestamp |
| Storage.SeedTable | site/server/storage.ts:26-35 | the subscriptions table after `n` iterations of the seeding loop, each `set` storing `SeedSubscription(i)` under `ids[i]` and overwriting an entry with the same id |
| Storage.DecimalRoundTrip | site/server/storage.ts:30-31 | the decimal digits a template literal prints for `i + 1` read back as `i + 1` |
| Storage.SeedNamesDistinct | site/server/storage.ts:30-31 | seeded subscriptions with different numbers have different names and different emails |
| Storage.SeedTableIds | site/server/storage.ts:26-35 | every seeded entry is stored under its own id |
| Storage.SeedTableKeys | site/server/storage.ts:26-35 | after `n` seeding iterations the table holds an entry exactly for the ids drawn so far |
| Storage.SeedTableSize | site/server/storage.ts:26-35 | with pairwise different ids, `n` iterations store exactly `n` subscriptions |
| Storage.SeedTableValues | site/server/storage.ts:26-35 | with pairwise different ids, the `k`-th seeded entry is `User {k+1}` / `user{k+1}@example.com` with its own id and timestamp |
| Storage.SeededTable | site/server/storage.ts:23-36 | a full seeding run stores every entry under its own id, and one entry per id when the ids are pairwise different |
| Storage.FirstNamed | site/server/storage.ts:43-45 | the position found is the first whose username matches, or the length when none does |
| Storage.Find | site/server/storage.ts:43-45 | `find` returns nothing exactly when no user matches, and otherwise a matching user with no match before it |
| Storage.FirstNamedAfterAppend | site/server/storage.ts:43-45 | appending a user keeps an earlier first match, and is the first match only when there was none |
| Storage.FindAfterAppend | site/server/storage.ts:43-53 | after appending a user a lookup by name returns the earlier match if there was one, and otherwise the new user when the name matches |
| Storage.MemStorage.Values | site/server/storage.ts:43 | the user values in `Map` insertion order, one per inserted id |
| Storage.MemStorage.constructor | site/server/storage.ts:16-21 | a new store has no users and the seeded subscriptions table; with pairwise different ids it holds 11950 subscriptions |
| Storage.MemStorage.InitializeSubscriptions | site/server/storage.ts:23-36 | the 11950-iteration loop leaves exactly the seeded table, keyed by the ids, and 11950 entries when the ids differ |
| Storage.MemStorage.GetUser | site/server/storage.ts:38-40 | a user comes back exactly when its id is in the table, and it is the stored record; ids never inserted give nothing |
| Storage.MemStorage.GetUserByUsername | site/server/storage.ts:42-46 | the earliest inserted user with that name; nothing exactly when no stored user has that name |
| Storage.MemStorage.CreateUser | site/server/storage.ts:48-53 | returns the input fields plus the id, stores it under the id, appends it to the value order (overwriting keeps the order), leaves subscriptions unchanged, and `GetUser(id)` then returns it |
| Storage.MemStorage.CreateSubscription | site/server/storage.ts:55-64 | returns the input fields plus id and creation time, stores it under the id, grows the count by one for a fresh id, and leaves the users unchanged |
| Storage.MemStorage.GetSubscriptionCount | site/server/storage.ts:66-68 | the number of entries in the subscriptions table |
| Storage.DuplicateUsernames | site/server/storage.ts:42-53 | two users with the same name are both stored, and a lookup by that name returns the one created first |
| Typewriter.Consistent | site/client/src/components/typewriter-text.tsx:24-27 | once anything of the current text is typed, the shown text is `text[..currentIndex]`; typing stops only at the end of the text |
| Typewriter.Steps | site/client/src/components/typewriter-text.tsx:27 | `k` firings in a row of the self-rescheduled `startTyping` timer |
| Typewriter.Mount | site/client/src/components/typewriter-text.tsx:16-35 | at first nothing is shown, the cursor is on, the counter is 0 and the first tick is waiting |
| Typewriter.Step | site/client/src/components/typewriter-text.tsx:23-32 | before the end, a tick shows `text[..currentIndex+1]` and increments the counter; at the end it changes no text, stops ticking and schedules one hide; it keeps consistency and never touches the cursor |
| Typewriter.Hide | site/client/src/components/typewriter-text.tsx:30 | the hide turns the cursor off and changes nothing else on screen |
| Typewriter.Render | site/client/src/components/typewriter-text.tsx:19-42 | a render with changed props cancels the waiting tick and restarts the counter at 0, keeping the shown text, the cursor and scheduled hides; unchanged props change nothing |
| Typewriter.RunConsistent | site/client/src/components/typewriter-text.tsx:19-42 | in every reachable state, once anything of the current text is typed, the shown text is `text[..currentIndex]`, a prefix of the text |
| Typewriter.CursorStaysHidden | site/client/src/components/typewriter-text.tsx:17-30 | once the cursor is hidden it never comes back |
| Typewriter.CursorHiddenOnlyByHide | site/client/src/components/typewriter-text.tsx:17-30 | without a hide firing the cursor keeps its state |
| Typewriter.TypesOut | site/client/src/components/typewriter-text.tsx:24-27 | `k` ticks with `k` characters left advance the counter by `k` and show the text up to it |
| Typewriter.Typed | site/client/src/components/typewriter-text.tsx:23-32 | after exactly `|text|` ticks from mount the whole text is shown and the cursor is still on |
| Typewriter.Completed | site/client/src/components/typewriter-text.tsx:23-32 | one more tick changes no text, stops ticking and schedules one hide, after which the cursor is off and the text stays whole |
| Typewriter.Finish | site/client/src/components/typewriter-text.tsx:28-31 | a tick at the end keeps the text and schedules exactly one hide, and that hide turns the cursor off |
| Typewriter.EmptyText | site/client/src/components/typewriter-text.tsx:24-31 | for an empty text the first tick goes straight to completion and the shown text stays empty |
| Typewriter.HideOnlyAtEnd | site/client/src/components/typewriter-text.tsx:28-31 | an event schedules a hide exactly when it is a waiting tick at the end of the text |
| Typewriter.TypewriterText.constructor | site/client/src/components/typewriter-text.tsx:16-35 | the component starts in the `Mount` state |
| Typewriter.TypewriterText.StartTyping | site/client/src/components/typewriter-text.tsx:23-32 | the callback performs exactly `Step` on the component state |
| Typewriter.TypewriterText.HideCursor | site/client/src/components/typewriter-text.tsx:30 | the callback performs exactly `Hide` on the component state |
| Typewriter.TypewriterText.Rerender | site/client/src/components/typewriter-text.tsx:19-42 | a render performs exactly `Render` on the component state |

## Left out

- Canvas drawing calls are modelled as an abstract draw list (`Prim`). These include `clearRect`, paths, `stroke` and `fill`, and the colours are compared as values.
- The effect's early returns are not modelled: when `canvasRef.current` is null or `getContext("2d")` yields nothing (network-canvas.tsx:20-24) the code draws nothing and registers no listener. The model assumes the canvas element and its 2D context exist.
- `requestAnimationFrame` and its cancellation are not modelled. Each frame is one explicit `DrawNetwork` call.
- The `resize` and `mousemove` listeners and `getBoundingClientRect` are replaced by explicit `ResizeCanvas` and `HandleMouseMove` calls. The rectangle offsets are parameters.
- IEEE floating point is not modelled. Coordinates are reals, and `Math.sqrt(d) < t` is replaced by `d < t*t` (justified by `RootThreshold`). Values such as NaN or infinite sizes are out of scope.
- `Math.random` is a sequence of draws supplied by the caller, five per node in the order x, y, vx, vy, radius.
- Canvas width and height are natural numbers. They are the integer sizes the DOM assigns.
- `randomUUID` ids are parameters. A repeated id is modelled the way `Map.set` treats it: it overwrites, and the insertion order is kept. The count results assume pairwise different ids.
- `Date.now()` and the random offset of the seeded `createdAt` are supplied integer timestamps (milliseconds). `Date` objects are not modelled.
- The `async`/`Promise` wrapping of the store methods is not modelled. The `IStorage` interface is not modelled either; the class implements its methods directly.
- The unique constraint on usernames in the database schema is not enforced by the store, so it is not assumed. `DuplicateUsernames` shows two users stored with one name.
- Timer timing is not modelled. This covers the `delay` and `speed` milliseconds, the 1000 ms hide delay, and interleavings decided by time. The waiting callbacks are explicit state (`stepPending`, `hidesPending`), and `delay` and `speed` only decide whether a render restarts the effect.
- The `className` prop and the rendered markup of the typewriter are not modelled, and neither is the canvas element's styling.
- Typewriter.Step: strings are modelled as sequences of Unicode scalar values, because that is what a Dafny `string` is. JavaScript's `text.length` and `text.slice` count UTF-16 code units, so for a text with a character outside the Basic Multilingual Plane the code takes two ticks for that character and shows a lone high surrogate after the first. The model takes one tick. The same applies to `===` on usernames in `getUserByUsername` and to the template literals of the seeded names: code-unit sequences and lone surrogates are not modelled.
- The page composition, the HTTP routes and the schema declarations are not part of this model. They hold no logic of the core.
