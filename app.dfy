/**
 * The viewer component: its React state, the file-input handler and the
 * upload handler, and the conditions under which the page shows the progress
 * line, the loading text and the graph.
 */
module App {
  import opened Options
  import opened Chunking
  import opened GraphData
  import opened Upload

  class Viewer {
    var graphData: Graph
    var loading: bool
    var file: Option<File>
    var uploadProgress: nat
    /** Every state setter call and POST the component has made, oldest first. */
    ghost var effects: seq<Effect>

    /** The installed graph has referential integrity and progress is a percentage. */
    ghost predicate Valid()
      reads this
    {
      Closed(graphData) && uploadProgress <= 100
    }

    /** The initial `useState` values. */
    constructor ()
      ensures Valid()
      ensures graphData == EmptyGraph && !loading && file == None && uploadProgress == 0 && effects == []
    {
      graphData := EmptyGraph;
      loading := false;
      file := None;
      uploadProgress := 0;
      effects := [];
    }

    /** `Uploading... n%` is shown while the percentage is strictly between 0 and 100. */
    predicate ProgressVisible()
      reads this
    {
      0 < uploadProgress < 100
    }

    /** The upload button is disabled while loading or while no file is chosen. */
    predicate UploadDisabled()
      reads this
    {
      loading || file.None?
    }

    /** `Loading... Please wait` is shown exactly while loading. */
    predicate LoadingTextVisible()
      reads this
    {
      loading
    }

    /** While loading, the waiting text is shown, the button is disabled and the graph is hidden. */
    lemma LoadingScreen()
      ensures loading ==> LoadingTextVisible() && UploadDisabled() && !GraphVisible()
      ensures !loading ==> !LoadingTextVisible() && (UploadDisabled() <==> file.None?)
    {
    }

    /** The graph is shown once loading is over and there is at least one node. */
    predicate GraphVisible()
      reads this
    {
      !loading && |graphData.nodes| > 0
    }

    /**
     * The file input changed: a chosen file replaces the selection and resets
     * progress to 0; a missing or empty file list changes nothing.
     */
    method HandleFileChange(files: Option<seq<File>>)
      requires Valid()
      modifies this
      ensures Valid()
      ensures files.None? || files.value == [] ==> unchanged(this)
      ensures files.Some? && files.value != [] ==>
                && file == Some(files.value[0])
                && uploadProgress == 0
                && effects == old(effects) + [SetFile(files.value[0]), SetUploadProgress(0)]
                && graphData == old(graphData) && loading == old(loading)
      ensures files.Some? && files.value != [] ==> !ProgressVisible() && (UploadDisabled() <==> loading)
    {
      if files.Some? && |files.value| > 0 {
        file := Some(files.value[0]);
        effects := effects + [SetFile(files.value[0])];
        uploadProgress := 0;
        effects := effects + [SetUploadProgress(0)];
      }
    }

    /**
     * Upload the selected file chunk by chunk, `replies[k]` being the
     * transport's answer to chunk `k`, then install the validated graph from
     * the last response. Without a file nothing happens.
     */
    method UploadAndFetchGraph(fileId: string, replies: seq<Reply>)
      requires Valid()
      requires file.Some? ==> Answers(file.value, replies)
      modifies this
      ensures Valid()
      ensures old(file).None? ==> unchanged(this)
      ensures old(file).Some? ==>
                && file == old(file)
                && !loading
                && effects == old(effects) + UploadEffects(old(file).value, fileId, replies)
                && graphData == Installed(old(file).value, replies)
                && uploadProgress == ProgressAfter(old(uploadProgress), old(file).value, replies)
      ensures old(file).Some? ==> (GraphVisible() <==> |Installed(old(file).value, replies).nodes| > 0)
    {
      if file.None? {
        return;
      }
      var f := file.value;
      loading := true;
      effects := effects + [SetLoading(true)];
      graphData := EmptyGraph;
      effects := effects + [SetGraphData(EmptyGraph)];
      ghost var started := effects;
      assert started == old(effects) + [SetLoading(true), SetGraphData(EmptyGraph)];
      var lastResponse, failed := SendChunks(f, fileId, replies);
      ghost var d := Delivered(replies, TotalChunks(|f.data|));
      if failed {
        FailedRun(f, fileId, replies);
      } else {
        CompletedRun(f, fileId, replies);
      }
      if !failed {
        InstallResponse(lastResponse);
      }
      assert graphData == Installed(f, replies);
      assert effects == started + LoopEffects(f, fileId, d) + Outcome(f, fileId, replies);
      loading := false;
      effects := effects + [SetLoading(false)];
      RunPieces(old(effects), f, fileId, replies);
    }

    /**
     * The `if (lastResponse)` block: validate the last body's edges against its
     * node ids and install the graph. A body missing `nodes` or `edges` makes
     * `nodes.map` or `edges.filter` throw, and the catch leaves the graph as it is.
     */
    method InstallResponse(lastResponse: Body)
      requires Valid()
      modifies this`graphData, this`effects
      ensures Valid()
      ensures match Resolve(lastResponse)
        case Loaded(g) => graphData == g && effects == old(effects) + [SetGraphData(g)]
        case _ => graphData == old(graphData) && effects == old(effects)
    {
      if lastResponse.Value? {
        if lastResponse.nodes.Some? && lastResponse.edges.Some? {
          var nodes := lastResponse.nodes.value;
          var nodeIds := NodeIds(nodes);
          var validEdges := ValidEdges(lastResponse.edges.value, nodeIds);
          graphData := Graph(nodes, validEdges);
          effects := effects + [SetGraphData(graphData)];
        }
      }
    }

    /**
     * The `for` loop over the chunks: post each one, keep its response as
     * `lastResponse` and report progress, until every chunk is sent or a request
     * fails (the failing request is sent, then the loop is left).
     */
    method SendChunks(f: File, fileId: string, replies: seq<Reply>) returns (lastResponse: Body, failed: bool)
      requires Answers(f, replies) && uploadProgress <= 100
      modifies this`effects, this`uploadProgress
      ensures var n := TotalChunks(|f.data|);
        var d := Delivered(replies, n);
        && (failed <==> d < n)
        && (!failed ==> lastResponse == LastBody(replies, n))
        && effects == old(effects) + LoopEffects(f, fileId, d) + (if failed then [Post(ChunkRequest(f, fileId, d))] else [])
        && uploadProgress == ProgressAfter(old(uploadProgress), f, replies)
        && uploadProgress <= 100
    {
      var totalChunks := TotalChunks(|f.data|);
      ghost var delivered := Delivered(replies, totalChunks);
      lastResponse := Falsy;
      failed := false;
      var chunkNumber := 0;
      while chunkNumber < totalChunks
        invariant chunkNumber <= delivered
        invariant effects == old(effects) + LoopEffects(f, fileId, chunkNumber)
        invariant lastResponse == LastBody(replies, chunkNumber)
        invariant uploadProgress == if chunkNumber == 0 then old(uploadProgress) else Progress(chunkNumber - 1, totalChunks)
        invariant uploadProgress <= 100
      {
        var request := ChunkRequest(f, fileId, chunkNumber);
        effects := effects + [Post(request)];
        var response := replies[chunkNumber];
        if response.Fail? {
          failed := true;
          break;
        }
        lastResponse := response.body;
        ProgressBounds(chunkNumber, totalChunks);
        uploadProgress := Progress(chunkNumber, totalChunks);
        effects := effects + [SetUploadProgress(uploadProgress)];
        chunkNumber := chunkNumber + 1;
      }
      assert chunkNumber == delivered;
    }
  }
}
