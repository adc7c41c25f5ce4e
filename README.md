# Graph store of unity-graph, modelled in Dafny

This project models the `Graph` class of unity-graph (`unity-graph/Assets/Scripts/Graph.cs`). The class is an
undirected graph of integer-labelled vertices drawn in a Unity scene. It keeps two parallel dictionaries:

- `vertices` maps a vertex id to the linked list of its neighbour ids, in the order they were added.
- `vertexViews` maps a vertex id to a `Node` record. The record holds the vertex's sphere and one
  overwritable slot for an edge object.

The model is imperative where the source is:

- `GraphStore.Graph` is a class with the same two dictionaries as fields (`map<int, seq<int>>` and
  `map<int, Node>`).
- `AddVertex`, `AddEdge`, `CreateEdgeView` and `RemoveVertex` are methods that update those fields in place.
- The `foreach` loop of `RemoveVertex` and the two loops of `Print` are `while` loops with invariants.

`AddEdge` and `RemoveVertex` are proved against value-level definitions in module `Adjacency`:

- `Linked` is the state `AddEdge` leaves.
- `RemoveFirst` is `LinkedList.Remove`, which deletes the first occurrence only.
- `RemoveFromEach` and `Detached` are the state `RemoveVertex` leaves.

The lemmas there state what those states mean:

- Multiplicities change by exactly one per `AddLast`.
- A neighbour loses one occurrence of the removed id per listing.
- Symmetry by multiplicity is preserved.
- After a removal, no list mentions the removed id.

Engine objects are modelled as `Visual` tokens numbered by a counter (`nextVisual`). Each `Object.Destroy`
call appends the object to a `destroyed` log. Because a record has one edge slot, an edge object that has
been overwritten in both of its records is never destroyed. The model keeps this behaviour.

Module `PrintFormat` models `Print`:

- One line per vertex: `"[k]: "`, then `"-> i "` for every neighbour, in list order.
- The lines come in the dictionary's enumeration order, which is left open.
- Then the end marker.

`AddVertex` and `CreateEdgeView` state their new dictionaries directly as map updates. `Print` is proved
against `PrintFormat`. A parser is proved to read every line back, so the format is unambiguous.
`GraphStore.AddLinkRemove` states the outcome of a small scenario: add vertices 1 and 2, link them,
remove 1.

## Model

| member | source | states |
|---|---|---|
| GraphStore.Graph.Valid | unity-graph/Assets/Scripts/Graph.cs:25-26 | The invariant every method keeps: the two dictionaries have the same keys, and every object a record holds was created before the next serial. |
| GraphStore.Graph.constructor | unity-graph/Assets/Scripts/Graph.cs:30-35 | A new graph has no vertices and no records, is valid (equal key sets) and is symmetric. |
| GraphStore.Graph.AddVertex | unity-graph/Assets/Scripts/Graph.cs:37-47 | A duplicate id returns the DuplicateVertex warning and changes nothing. A fresh id gets an empty list and a record with a new sphere and an empty edge slot; every other entry is kept. Key-set equality and symmetry are preserved. |
| GraphStore.AddedVertexKeepsSymmetry | unity-graph/Assets/Scripts/Graph.cs:45-46 | Adding an id with an empty list to a symmetric adjacency keeps it symmetric. |
| GraphStore.Graph.AddEdge | unity-graph/Assets/Scripts/Graph.cs:49-55 | The new lists are `Linked(old, u, v)`: `v` appended to `u`'s list, then `u` to `v`'s. Both records' slots get one new edge object that no record held before; every other record is kept. Validity and symmetry are preserved. |
| GraphStore.Graph.CreateEdgeView | unity-graph/Assets/Scripts/Graph.cs:81-93 | One new object goes into the edge slot of both endpoint records, overwriting what they held; nothing else changes and the records stay valid. |
| Adjacency.Linked | unity-graph/Assets/Scripts/Graph.cs:51-52 | Appending to both endpoint lists keeps the set of vertices. |
| Adjacency.LinkedMult | unity-graph/Assets/Scripts/Graph.cs:51-52 | Linking adds exactly one occurrence of `v` to `u`'s list and one of `u` to `v`'s (two when `u == v`). Every other multiplicity is unchanged, and an existing edge is not detected. |
| Adjacency.LinkedElsewhere | unity-graph/Assets/Scripts/Graph.cs:51-52 | Lists of vertices other than the two endpoints are untouched. |
| Adjacency.LinkedPreservesSymmetry | unity-graph/Assets/Scripts/Graph.cs:51-52 | `AddEdge` keeps adjacency symmetric by multiplicity. |
| GraphStore.Graph.RemoveVertex | unity-graph/Assets/Scripts/Graph.cs:57-79 | A missing id returns the MissingVertex warning, logs nothing and changes nothing. Otherwise the lists become `Detached(old, x)` and the record goes. The edge object (if any) and then the sphere are destroyed. The printed log covers the new lists. Key-set equality is preserved. Symmetry is preserved, and afterwards no list mentions `x`. |
| GraphStore.Graph.DropFromNeighbours | unity-graph/Assets/Scripts/Graph.cs:65-69 | The `foreach` loop leaves exactly `RemoveFromEach(old, x, old[x])`: one `Remove(x)` on each listed neighbour, in list order. |
| Adjacency.RemoveFirst | unity-graph/Assets/Scripts/Graph.cs:68 | `LinkedList.Remove` takes away one occurrence of `x` if there is one (the length drops by one) and leaves every other count. A list without `x` is returned unchanged. |
| Adjacency.RemoveFirstAt | unity-graph/Assets/Scripts/Graph.cs:68 | The occurrence removed is the first one; everything before and after it keeps its order. |
| Adjacency.RemoveRepeatedly | unity-graph/Assets/Scripts/Graph.cs:66-69 | `n` removals of `x` leave `max(count - n, 0)` occurrences of `x` and every other count. |
| Adjacency.RemoveFromEach | unity-graph/Assets/Scripts/Graph.cs:66-69 | The state after the loop has run over a prefix of the list: `Remove(x)` on each handled id in turn; it keeps the set of vertices. |
| Adjacency.RemoveFromEachAt | unity-graph/Assets/Scripts/Graph.cs:66-69 | After the loop, each other vertex `j` has had `x` removed once per occurrence of `j` in `x`'s list, whatever order those came in. |
| Adjacency.Detached | unity-graph/Assets/Scripts/Graph.cs:66-72 | After removal, the vertices are the old ones minus `x`. |
| Adjacency.DetachedMult | unity-graph/Assets/Scripts/Graph.cs:66-72 | Every multiplicity after removal: `x` lists nothing. Links between other vertices are kept. A neighbour keeps only the occurrences of `x` that outnumber its own occurrences in `x`'s list. |
| Adjacency.DetachedPreservesSymmetry | unity-graph/Assets/Scripts/Graph.cs:66-72 | On a symmetric graph, removal leaves a symmetric graph in which no list mentions `x`. |
| Adjacency.DetachedElsewhere | unity-graph/Assets/Scripts/Graph.cs:66-72 | A vertex that `x` does not list keeps its list unchanged. |
| Adjacency.AbsentIsUnmentioned | unity-graph/Assets/Scripts/Graph.cs:59-63 | Under symmetry, an id that is not a vertex is in no list, so the no-op removal also leaves `x` unmentioned. |
| Adjacency.SymmetricListsAreClosed | unity-graph/Assets/Scripts/Graph.cs:66-68 | Under symmetry, every listed neighbour is a vertex, so the lookup `vertices[i]` in the loop cannot fail. |
| GraphStore.Node.Destroyed | unity-graph/Assets/Scripts/Graph.cs:18-22 | `Node.Destroy`, as intended, destroys the edge object if the slot holds one, then the sphere, and nothing else. |
| GraphStore.DestroyAsWritten | unity-graph/Assets/Scripts/Graph.cs:18-22 | `Node.Destroy` as written, for an edge object not yet destroyed: it throws exactly when the slot is empty; otherwise it destroys the slot's object, then the sphere. |
| GraphStore.DestroyAsWrittenDiffers | unity-graph/Assets/Scripts/Graph.cs:18-22 | For an edge object not yet destroyed, the code as written fails exactly when the slot is empty; otherwise it matches the intended behaviour. |
| GraphStore.RemoveVertexAsWritten | unity-graph/Assets/Scripts/Graph.cs:66-76 | `RemoveVertex` as written on an existing vertex with no self-loop and only vertices as neighbours (the loop throws otherwise, as the requires of `GraphStore.Graph.RemoveVertex` records): the lists are always `Detached(old, x)`; then `Node.Destroy` either throws, leaving the record dictionary as it was, or destroys and the record goes. |
| GraphStore.EdgelessRemovalAsWritten | unity-graph/Assets/Scripts/Graph.cs:72-76 | On a vertex the loop can handle (no self-loop, only vertices as neighbours) and whose edge object, if any, was not yet destroyed, removal as written throws exactly on an edgeless vertex, and then the key sets of the two dictionaries differ. When it does not throw, it ends in the intended state with equal key sets. |
| GraphStore.SharedEdgeDestroyedTwice | unity-graph/Assets/Scripts/Graph.cs:18-22 | When two records share an edge object, removing one endpoint destroys it and leaves the other record holding it, so removing the other destroys it again. |
| GraphStore.Graph.Print | unity-graph/Assets/Scripts/Graph.cs:95-112 | The log has one line per vertex plus the end marker, last. Every vertex's line is present, and every other line reads back as some vertex with its exact list. |
| PrintFormat.DumpLines | unity-graph/Assets/Scripts/Graph.cs:97-111 | The same, for any adjacency dictionary. |
| PrintFormat.Enumerate | unity-graph/Assets/Scripts/Graph.cs:97 | Enumerating a dictionary yields every key exactly once. |
| PrintFormat.DumpShape | unity-graph/Assets/Scripts/Graph.cs:97-111 | The lines for any enumeration of the keys, followed by the end marker, have the shape `DumpLines` promises. |
| PrintFormat.LinesForComplete | unity-graph/Assets/Scripts/Graph.cs:97-108 | Every enumerated vertex's line appears among the dumped lines. |
| PrintFormat.LinesForSound | unity-graph/Assets/Scripts/Graph.cs:97-108 | Every dumped line is the line of a vertex. |
| PrintFormat.LinesForAt | unity-graph/Assets/Scripts/Graph.cs:97-108 | The `j`-th dumped line is the line of the `j`-th enumerated vertex. |
| PrintFormat.FormatLine | unity-graph/Assets/Scripts/Graph.cs:99-106 | The StringBuilder loop builds exactly `LineText(key, list)`. |
| PrintFormat.LineText | unity-graph/Assets/Scripts/Graph.cs:101-105 | A vertex's line opens with `[` and always ends with a space, whether or not there are neighbours. |
| PrintFormat.IntText | unity-graph/Assets/Scripts/Graph.cs:101-105 | An id's text is non-empty and starts with `-` exactly when the id is negative. |
| PrintFormat.ParseLineText | unity-graph/Assets/Scripts/Graph.cs:101-105 | A line reads back as its key and its whole neighbour list. |
| PrintFormat.LineTextInjective | unity-graph/Assets/Scripts/Graph.cs:101-105 | Different (key, list) pairs print different lines. |
| PrintFormat.LineTextIsNotEndMarker | unity-graph/Assets/Scripts/Graph.cs:101-111 | No vertex line can be mistaken for the end marker. |
| PrintFormat.ParseIntText | unity-graph/Assets/Scripts/Graph.cs:101-105 | A decimal integer (with `-` when negative) followed by a non-digit reads back as that integer. |
| PrintFormat.NatTextDigits | unity-graph/Assets/Scripts/Graph.cs:105 | A number's decimal text is a non-empty run of digits. |
| GraphStore.AddLinkRemove | unity-graph/Assets/Scripts/Graph.cs:37-79 | Add 1, add 2, link them, remove 1: only `2` with an empty list is left. The dump is `"[2]: "` then the end marker. The edge object and the first sphere were destroyed. |
| GraphStore.LinkedPair | unity-graph/Assets/Scripts/Graph.cs:37-55 | Adding 1, adding 2 and linking them gives lists `{1: [2], 2: [1]}`, spheres 0 and 1, edge object 2 in both slots, and nothing destroyed. |
| GraphStore.LinkOneTwo | unity-graph/Assets/Scripts/Graph.cs:51-52 | Linking two lone vertices 1 and 2 gives `{1: [2], 2: [1]}`. |
| GraphStore.DetachOne | unity-graph/Assets/Scripts/Graph.cs:66-72 | Removing 1 from `{1: [2], 2: [1]}` gives `{2: []}`. |
| GraphStore.SingleVertexDump | unity-graph/Assets/Scripts/Graph.cs:95-112 | The only dump of the single vertex 2 with no edges is `"[2]: "` then the end marker. |

## Left out

- Engine objects are not modelled. `GameObject.CreatePrimitive` and `Object.Instantiate` become fresh `Visual` tokens from a counter, and `Object.Destroy` becomes an entry in the `destroyed` log. `GetComponent<EdgeView>` and `EdgeView.Init` have no counterpart.
- Unity defers the actual destruction of an object to the end of the frame; the model records the call only.
- The `Vector3` positions and transforms are left out: they are floating-point geometry with no effect on the bookkeeping.
- The `edgePrefab` constructor argument is left out; it only feeds `Object.Instantiate`.
- Warnings become values. `Debug.LogWarning` becomes the returned `Warning`, and the lines `Debug.Log` writes become the returned `log`.
- GraphStore.Graph.AddEdge requires both ids to be vertices. The source throws `KeyNotFoundException` otherwise, and when only `u` exists its list has already been changed. That partial update is not modelled.
- GraphStore.Graph.RemoveVertex requires that the vertex has no self-loop. The source's `foreach` then removes from the list it is enumerating and the enumerator throws.
- GraphStore.Graph.RemoveVertex requires every listed neighbour to be a vertex, otherwise `vertices[i]` throws. Under symmetry this always holds (`Adjacency.SymmetricListsAreClosed`).
- GraphStore.Graph.RemoveVertex does not track whether an edge object was already destroyed. The two records of an edge share one object. Removing one endpoint destroys it, and the other record keeps it (`GraphStore.SharedEdgeDestroyedTwice`). Removing the other endpoint then appends the same object to `destroyed` a second time. In Unity, that second `Node.Destroy` reads `EdgeView.gameObject` of a component already destroyed, which fails with a `MissingReferenceException` once the first destruction has taken effect. That failure also comes after line 72, so in the source the key sets then drift apart as in the Finding. The model does not capture this failure.
- GraphStore.Graph.RemoveVertex does not fail on an empty edge slot. The model uses the intended `Node.Destroy`; the failure is recorded under Findings.
- Symmetry is not part of `Valid()`, because the source does not enforce it. Each mutator is proved to keep it when it held.
- PrintFormat.DumpLines leaves the order of the vertex lines open, because `Dictionary` enumeration order is unspecified.
- Integer text is `int.ToString()` with an ASCII `-` sign; culture-specific negative signs are not modelled.
- Ids are C# 32-bit `int`s, modelled as unbounded `int`. The class only compares, stores and prints them, so no wrap-around can arise.
- `Node` is a value in the record map rather than a shared object. Records are private and never aliased. The one edge object shared by two records is the same `Visual` value in both slots.

## Findings

| source | as written | input that shows it | evidently intended | confidence | as-written member | corrected member |
|---|---|---|---|---|---|---|
| unity-graph/Assets/Scripts/Graph.cs:18-22 | `Node.Destroy` reads `EdgeView.gameObject` without a null check, so a record whose edge slot was never filled throws; `RemoveVertex` has by then dropped the vertex from `vertices` (line 72) but not from `vertexViews` (line 76), so the two key sets differ | `AddVertex(1)` then `RemoveVertex(1)` | destroy the edge object only if the vertex has one, then the sphere, as the comment at line 74 says | not executed | GraphStore.EdgelessRemovalAsWritten | GraphStore.Node.Destroyed |
