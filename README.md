# IFC graph viewer: chunked upload and graph validation

This project models the logic of the viewer component in `src/App.tsx` of the
IFC graph viewer. The user picks an IFC file. The component cuts the file into
5 MiB chunks and POSTs them one after another to the backend, all under the
same file id. It keeps only the last response as the graph payload. It drops
every edge whose source or target is not a node of that payload, and installs
the result for display. Around this it keeps three pieces of React state:
`loading`, `graphData` and `uploadProgress`.

The model has four modules.

- `Chunking` (chunking.dfy): the chunk size, the chunk count and byte ranges,
  the request sent for each chunk, and the rounded progress percentage.
- `GraphData` (graph_data.dfy): nodes, edges and graphs, the node-id set, the
  referential-integrity edge filter, and what the handler makes of a response
  body.
- `Upload` (upload.dfy): one run of the upload handler as a pure function.
  Its inputs are the file, the file id and the transport's answer to each
  chunk. It gives the ordered list of effects (state setter calls and POSTs),
  the graph left installed and the progress left on screen.
- `App` (app.dfy): class `Viewer`, whose fields are the component's state.
  `HandleFileChange` and `UploadAndFetchGraph` are methods that update those
  fields. The upload loop is a `while` loop proved against the `Upload`
  functions. The render conditions are predicates over the fields.

The network is a parameter, `replies: seq<Reply>`. Entry `k` is the answer to
chunk `k`: `Ok(body)` or `Fail`, for an error that `axios.post` throws. The
`Viewer.effects` ghost field, an observation trace rather than component state, records each setter call and each POST in order. That
makes the ordering claims statable, for example that the graph is cleared
before the first chunk is sent. A response body is `Falsy` (null or empty,
failing `if (lastResponse)`) or a `Value` whose `nodes` and `edges` fields may
each be missing. A missing field makes `nodes.map` or `edges.filter` throw.
The handler catches that error, so the cleared graph stays.

## Model

| member | source | states |
|---|---|---|
| `Chunking.TotalChunks` | src/App.tsx:38 | the chunk count, `(size + CHUNK_SIZE - 1) / CHUNK_SIZE` in integers; its meaning is stated by `TotalChunksIsCeil` |
| `Chunking.TotalChunksIsCeil` | src/App.tsx:38 | the count `TotalChunks(size)` is the least `n` with `size <= n * CHUNK_SIZE`, i.e. `ceil(size / CHUNK_SIZE)`, with `CHUNK_SIZE = 5 * 1024 * 1024` |
| `Chunking.ChunkStart` | src/App.tsx:45 | `start = chunkNumber * CHUNK_SIZE` |
| `Chunking.ChunkEnd` | src/App.tsx:46 | `end = Math.min(file.size, start + CHUNK_SIZE)` |
| `Chunking.ChunkBounds` | src/App.tsx:44-47 | every chunk `k < totalChunks` is a non-empty range inside the file of at most `CHUNK_SIZE` bytes; every chunk but the last is full and ends where the next one starts |
| `Chunking.ChunksCoverFile` | src/App.tsx:45-46 | for a non-empty file the first chunk starts at byte 0 and the last ends at `size` |
| `Chunking.ChunkOfByte` | src/App.tsx:45-46 | every byte `b < size` lies in chunk `b / CHUNK_SIZE`, which is a planned chunk, and in no other chunk |
| `Chunking.ChunkRequest` | src/App.tsx:47-56 | the POST for chunk `k`: body `file.slice(start, end)`, headers `Content-Type`, `file-id`, `chunk-number`, `total-chunks`; defined only for `k < totalChunks`, the loop's range |
| `Chunking.Plan` | src/App.tsx:44-56 | the requests of chunks `0 .. totalChunks - 1`, in the loop's order |
| `Chunking.PlanMetadata` | src/App.tsx:49-55 | planned request `k` has content type `application/octet-stream`, the upload's `file-id`, `chunk-number` `k`, `total-chunks` equal to the computed count, and a body of 1 to `CHUNK_SIZE` bytes |
| `Chunking.PrefixReassembles` | src/App.tsx:44-47 | the bodies of the first `k` requests, joined, are exactly the file's bytes up to the end of chunk `k - 1` |
| `Chunking.PlanReassembles` | src/App.tsx:44-47 | joining all chunk bodies in order gives back the whole file, for every size including 0 |
| `Chunking.Progress` | src/App.tsx:62 | the percentage after chunk `k`, `(200 * (k + 1) + total) / (2 * total)` in integers; its meaning is stated by `ProgressRounds` |
| `Chunking.ProgressRounds` | src/App.tsx:62 | `Progress(k, total)` is the integer nearest to `(k + 1) * 100 / total`, halves rounded up, as `Math.round` on the exact quotient |
| `Chunking.ProgressBounds` | src/App.tsx:62 | reported progress is at most 100, and exactly 100 after the final chunk |
| `Chunking.ProgressMonotone` | src/App.tsx:62 | progress after a later chunk is never smaller than after an earlier one |
| `GraphData.NodeIds` | src/App.tsx:72 | an id is in the set exactly when some node has it |
| `GraphData.ValidEdges` | src/App.tsx:75-77 | every kept edge is an input edge with both endpoints in the id set, and every input edge with both endpoints present is kept |
| `GraphData.ValidEdgesInOrder` | src/App.tsx:75-77 | the kept edges form a subsequence of the input: original relative order |
| `GraphData.ValidEdgesCounts` | src/App.tsx:75-77 | each edge occurs in the result as often as in the input when both its endpoints are present, and never otherwise |
| `GraphData.ValidEdgesAppend` | src/App.tsx:75-77 | filtering a concatenation is the concatenation of the filtered parts: each edge is judged on its own |
| `GraphData.ValidEdgesIdempotent` | src/App.tsx:75-77 | filtering again with the same ids changes nothing |
| `GraphData.Resolve` | src/App.tsx:67-80 | a falsy body gives no data; a body missing `nodes` or `edges` is malformed; otherwise the graph is loaded with the nodes unchanged, the edges filtered in order, every edge's endpoints among the nodes, and each edge kept exactly as often as it occurs in the input when both its endpoints are nodes, otherwise not at all |
| `GraphData.NoNodesNoEdges` | src/App.tsx:72-77 | a payload with no nodes validates to the empty graph |
| `GraphData.DanglingEdgeDropped` | src/App.tsx:72-80 | nodes 1, 2, 3 with edges 1→3 and 2→99 validate to the same nodes and the single edge 1→3 |
| `Upload.Delivered` | src/App.tsx:44-59 | the answers to all chunks before the returned count succeeded, and if the count is short of the total, the next answer is a failure |
| `Upload.LastBody` | src/App.tsx:42-59 | `lastResponse` after `k` delivered chunks: `null` (falsy) before the first, then the body of response `k - 1` |
| `Upload.LoopEffects` | src/App.tsx:44-63 | the effects of `k` succeeding iterations: for each chunk in order, its POST followed by its `setUploadProgress` |
| `Upload.Outcome` | src/App.tsx:49-87 | after the delivered chunks: the failed POST, or the `setGraphData` of the validated graph, or nothing when the body is falsy or malformed |
| `Upload.UploadEffects` | src/App.tsx:36-90 | a whole run: `setLoading(true)`, `setGraphData(empty)`, the loop, the outcome, `setLoading(false)` |
| `Upload.ProgressAfter` | src/App.tsx:58-63 | the progress left after a run: that of the last delivered chunk, or the earlier value when none was delivered |
| `Upload.Installed` | src/App.tsx:66-90 | the installed graph always has referential integrity; it is non-empty only when the file has at least one chunk and every chunk request succeeded |
| `Upload.CompletedRun` | src/App.tsx:66-84 | when every chunk request succeeds the run installs exactly what the last body resolves to and records its single `setGraphData`; a falsy or malformed last body leaves the cleared graph and records nothing more |
| `Upload.FailedRun` | src/App.tsx:49-87 | when a request fails the run installs nothing (the cleared graph stays) and the failed request is the last thing it posts |
| `Upload.LoopPosts` | src/App.tsx:44-56 | after `k` iterations the loop has posted exactly the first `k` planned requests, in order |
| `Upload.LoopReports` | src/App.tsx:58-63 | after `k` iterations the loop has reported the progress of chunks `0..k-1`, in order |
| `Upload.SentRequests` | src/App.tsx:44-56 | a run posts the planned requests in order, up to and including the first that fails, or all of them; the posted requests share one `file-id`, request `i` has `chunk-number` `i`, and `total-chunks` is always the computed count |
| `Upload.ReportedProgress` | src/App.tsx:62 | a run reports one progress value per successful chunk, `Progress(i, total)` for chunk `i`; the values never decrease, stay within 100, and end at 100 when every chunk went through |
| `Upload.EffectOrder` | src/App.tsx:36-37 | a run first sets `loading` and clears the graph, before any request; `loading` stays on until the final step turns it off; the only other graph installed comes after the last request and is the run's result |
| `Upload.LastResponseWins` | src/App.tsx:59 | replacing the body of a response other than the final chunk's with another successful one, or replacing an answer at a position at or beyond `totalChunks`, changes nothing a run does or installs |
| `Upload.UnreachedAnswer` | src/App.tsx:49-87 | replacing any answer after the first failed request, or at or beyond position `totalChunks`, by any other answer changes nothing a run does or installs: the loop is left at the failure |
| `Upload.ZeroByteUpload` | src/App.tsx:83-84 | a zero-byte file has no chunks; its run only sets `loading`, clears the graph and resets `loading`; it installs the empty graph and leaves progress unchanged |
| `Upload.ProgressAfterRun` | src/App.tsx:103 | the progress left after a run is at most 100; it is 100, which hides the progress line, once every chunk of a non-empty file went through |
| `App.Viewer.constructor` | src/App.tsx:13-19 | initial state: empty graph, not loading, no file, progress 0 |
| `App.Viewer.ProgressVisible` | src/App.tsx:103 | the progress line is rendered when `0 < uploadProgress < 100` |
| `App.Viewer.UploadDisabled` | src/App.tsx:110 | the button is disabled when `loading` or no file is chosen |
| `App.Viewer.LoadingTextVisible` | src/App.tsx:115 | the waiting text is rendered exactly while `loading` |
| `App.Viewer.GraphVisible` | src/App.tsx:118 | the graph is rendered when not loading and the graph has at least one node |
| `App.Viewer.LoadingScreen` | src/App.tsx:110-118 | while loading the waiting text shows, the button is disabled and the graph is hidden; otherwise the text is hidden and the button is disabled exactly when no file is chosen |
| `App.Viewer.HandleFileChange` | src/App.tsx:22-27 | choosing a file stores the first file and resets progress to 0, leaving graph and `loading` alone; a missing or empty file list changes nothing |
| `App.Viewer.UploadAndFetchGraph` | src/App.tsx:30-91 | without a file nothing changes; otherwise the recorded effects are exactly `UploadEffects`, the graph is `Installed`, progress is `ProgressAfter`, `loading` ends false, and the graph is visible exactly when the installed graph has a node |
| `App.Viewer.InstallResponse` | src/App.tsx:66-80 | a body with both `nodes` and `edges` installs the validated graph and records one `setGraphData` call; a falsy or malformed body changes neither the graph nor the effects |
| `App.Viewer.SendChunks` | src/App.tsx:42-64 | the loop stops early exactly when a request fails; otherwise `lastResponse` is the final chunk's body; the effects are those of the delivered chunks plus the failed post; progress is that of the last delivered chunk |

## Left out

- `alert` for the missing file, `console.log` and `console.error`: user-interface output and logging. A transport failure is only logged (src/App.tsx:86-87); no message is shown.
- JSX rendering, the Cytoscape component, the dagre layout and the tap handler (src/App.tsx:2-8, 93-136): rendering and foreign library calls. Only the four render conditions (src/App.tsx:103, 110, 115, 118) are kept, as the predicates `ProgressVisible`, `UploadDisabled`, `LoadingTextVisible` and `GraphVisible`.
- `axios.post`, the endpoint URL and `file.slice`: network and blob I/O. The transport is the `replies` sequence, which must answer every chunk the loop may send (`Answers`). A file is its byte sequence.
- `Date.now().toString()` as the file id: it reads a clock. The id is a parameter, fixed for one run.
- `chunkNumber.toString()` and `totalChunks.toString()`: header values are kept as numbers, not decimal strings.
- `Chunking.Progress`: computed exactly on rationals. The double-precision rounding of `(chunkNumber + 1) / totalChunks * 100` before `Math.round` is not modelled, and it matters at realistic sizes: for a 40-chunk (200 MiB) file, `(23 / 40) * 100` is `57.49999999999999` in double arithmetic, so the program reports 57 after chunk 22 where `Progress(22, 40)` is 58.
- A node or edge element without a `data` field, which would also make the filter throw: elements are always well-formed records. Node attributes other than `id` are carried through and never inspected.
- React's asynchronous state updates, and a second run started while one is in flight: each setter takes effect at once, and runs do not overlap (the button is disabled while loading).
- `App.Viewer.UploadAndFetchGraph`: a run is treated as uninterrupted. The file input (src/App.tsx:99) is never disabled, so `handleFileChange` (src/App.tsx:22-27) may run while a chunk request is awaited (src/App.tsx:49) and set a new file and progress 0 mid-run. The contract's `file == old(file)` and final `uploadProgress == ProgressAfter(...)` do not hold then; choosing a file during an upload is not modelled.
- `src/types/react-cytoscapejs.d.ts` (type declarations only) and `vite.config.ts` (build and proxy configuration) have no behaviour that is modelled.
