/**
 * What one run of the upload handler does, as a function of the chosen file,
 * the upload's file id and the transport's answer to each chunk request: the
 * ordered effects it makes (React state setter calls and POSTs), the graph it
 * leaves installed and the progress it leaves reported.
 */
module Upload {
  import opened Chunking
  import opened GraphData

  /** The transport's answer to one chunk request: a response body, or an error that `axios.post` throws. */
  datatype Reply = Ok(body: Body) | Fail

  /** One observable step of the handler, in the order it happens. */
  datatype Effect =
    | SetLoading(on: bool)
    | SetGraphData(graph: Graph)
    | SetUploadProgress(percent: nat)
    | SetFile(file: File)
    | Post(request: Request)

  /** The transport answers every chunk the loop may send. */
  predicate Answers(f: File, replies: seq<Reply>) {
    TotalChunks(|f.data|) <= |replies|
  }

  /** How many of the first `n` chunks go through before the first failed request. */
  function Delivered(replies: seq<Reply>, n: nat): (d: nat)
    requires n <= |replies|
    ensures d <= n
    ensures forall k :: 0 <= k < d ==> replies[k].Ok?
    ensures d < n ==> replies[d].Fail?
  {
    if n == 0 || replies[0].Fail? then 0 else 1 + Delivered(replies[1..], n - 1)
  }

  /** `lastResponse` after `k` delivered chunks: `null` before the first one, then the latest body. */
  function LastBody(replies: seq<Reply>, k: nat): Body
    requires k <= |replies|
    requires k > 0 ==> replies[k - 1].Ok?
  {
    if k == 0 then Falsy else replies[k - 1].body
  }

  /** The effects of the first `k` loop iterations when all of them succeed. */
  function LoopEffects(f: File, fileId: string, k: nat): seq<Effect>
    requires k <= TotalChunks(|f.data|)
  {
    if k == 0 then []
    else LoopEffects(f, fileId, k - 1)
         + [Post(ChunkRequest(f, fileId, k - 1)), SetUploadProgress(Progress(k - 1, TotalChunks(|f.data|)))]
  }

  /** The graph the run leaves installed. */
  function Installed(f: File, replies: seq<Reply>): (g: Graph)
    requires Answers(f, replies)
    ensures Closed(g)
    ensures g != EmptyGraph ==> 0 < TotalChunks(|f.data|) == Delivered(replies, TotalChunks(|f.data|))
  {
    var n := TotalChunks(|f.data|);
    if Delivered(replies, n) < n then EmptyGraph
    else match Resolve(LastBody(replies, n))
      case Loaded(g) => g
      case _ => EmptyGraph
  }

  /**
   * What follows the delivered chunks: the request that failed, or the
   * validated graph being installed, or nothing when the last body gives none.
   */
  function Outcome(f: File, fileId: string, replies: seq<Reply>): seq<Effect>
    requires Answers(f, replies)
  {
    var n := TotalChunks(|f.data|);
    var d := Delivered(replies, n);
    if d < n then [Post(ChunkRequest(f, fileId, d))]
    else if Resolve(LastBody(replies, n)).Loaded? then [SetGraphData(Installed(f, replies))]
    else []
  }

  /** A run whose requests all succeed installs what the last body resolves to, and nothing else. */
  lemma CompletedRun(f: File, fileId: string, replies: seq<Reply>)
    requires Answers(f, replies)
    requires Delivered(replies, TotalChunks(|f.data|)) == TotalChunks(|f.data|)
    ensures match Resolve(LastBody(replies, TotalChunks(|f.data|)))
      case Loaded(g) => Installed(f, replies) == g && Outcome(f, fileId, replies) == [SetGraphData(g)]
      case _ => Installed(f, replies) == EmptyGraph && Outcome(f, fileId, replies) == []
  {
  }

  /** A run with a failed request installs nothing; the failed request is its last post. */
  lemma FailedRun(f: File, fileId: string, replies: seq<Reply>)
    requires Answers(f, replies)
    requires Delivered(replies, TotalChunks(|f.data|)) < TotalChunks(|f.data|)
    ensures Installed(f, replies) == EmptyGraph
    ensures Outcome(f, fileId, replies) == [Post(ChunkRequest(f, fileId, Delivered(replies, TotalChunks(|f.data|))))]
  {
  }

  /** Everything a run does when a file is selected, in order. */
  function UploadEffects(f: File, fileId: string, replies: seq<Reply>): seq<Effect>
    requires Answers(f, replies)
  {
    [SetLoading(true), SetGraphData(EmptyGraph)]
      + LoopEffects(f, fileId, Delivered(replies, TotalChunks(|f.data|)))
      + Outcome(f, fileId, replies)
      + [SetLoading(false)]
  }

  /** The effects of a run, spelt out piece by piece after what came before it. */
  lemma RunPieces(before: seq<Effect>, f: File, fileId: string, replies: seq<Reply>)
    requires Answers(f, replies)
    ensures before + [SetLoading(true), SetGraphData(EmptyGraph)]
              + LoopEffects(f, fileId, Delivered(replies, TotalChunks(|f.data|)))
              + Outcome(f, fileId, replies) + [SetLoading(false)]
            == before + UploadEffects(f, fileId, replies)
  {
  }

  /** After the loop a run posts only the request that failed, and reports no progress. */
  lemma OutcomeTrace(f: File, fileId: string, replies: seq<Reply>)
    requires Answers(f, replies)
    ensures |Outcome(f, fileId, replies)| <= 1
    ensures Posts(Outcome(f, fileId, replies))
            == if Delivered(replies, TotalChunks(|f.data|)) < TotalChunks(|f.data|)
               then [ChunkRequest(f, fileId, Delivered(replies, TotalChunks(|f.data|)))] else []
    ensures Reports(Outcome(f, fileId, replies)) == []
  {
    var n := TotalChunks(|f.data|);
    var d := Delivered(replies, n);
    var tail := Outcome(f, fileId, replies);
    if d < n {
      assert tail == [Post(ChunkRequest(f, fileId, d))];
      SingleEffect(tail[0]);
    } else if Resolve(LastBody(replies, n)).Loaded? {
      assert tail == [SetGraphData(Installed(f, replies))];
      SingleEffect(tail[0]);
    } else {
      assert tail == [];
    }
  }

  /** The progress shown after the run: the last value reported, or the earlier one if none was. */
  function ProgressAfter(before: nat, f: File, replies: seq<Reply>): nat
    requires Answers(f, replies)
  {
    var n := TotalChunks(|f.data|);
    var d := Delivered(replies, n);
    if d == 0 then before else Progress(d - 1, n)
  }

  /** The number of requests a run sends: the failed one is sent too. */
  function Sent(f: File, replies: seq<Reply>): nat
    requires Answers(f, replies)
  {
    var n := TotalChunks(|f.data|);
    var d := Delivered(replies, n);
    if d < n then d + 1 else n
  }

  /** The requests among `es`, in order. */
  function Posts(es: seq<Effect>): seq<Request> {
    if es == [] then []
    else (if es[0].Post? then [es[0].request] else []) + Posts(es[1..])
  }

  /** The progress values among `es`, in order. */
  function Reports(es: seq<Effect>): seq<nat> {
    if es == [] then []
    else (if es[0].SetUploadProgress? then [es[0].percent] else []) + Reports(es[1..])
  }

  lemma {:induction false} PostsAppend(a: seq<Effect>, b: seq<Effect>)
    ensures Posts(a + b) == Posts(a) + Posts(b)
  {
    if a == [] {
      assert a + b == b;
    } else {
      var ab := a + b;
      assert ab[0] == a[0];
      assert ab[1..] == a[1..] + b;
      PostsAppend(a[1..], b);
      var first := if a[0].Post? then [a[0].request] else [];
      assert Posts(ab) == first + Posts(ab[1..]);
      assert Posts(a) == first + Posts(a[1..]);
    }
  }

  lemma {:induction false} ReportsAppend(a: seq<Effect>, b: seq<Effect>)
    ensures Reports(a + b) == Reports(a) + Reports(b)
  {
    if a == [] {
      assert a + b == b;
    } else {
      var ab := a + b;
      assert ab[0] == a[0];
      assert ab[1..] == a[1..] + b;
      ReportsAppend(a[1..], b);
      var first := if a[0].SetUploadProgress? then [a[0].percent] else [];
      assert Reports(ab) == first + Reports(ab[1..]);
      assert Reports(a) == first + Reports(a[1..]);
    }
  }

  lemma SingleEffect(e: Effect)
    ensures Posts([e]) == if e.Post? then [e.request] else []
    ensures Reports([e]) == if e.SetUploadProgress? then [e.percent] else []
  {
    assert [e][1..] == [];
  }

  /** One loop iteration adds its request to the posts and its percentage to the reports. */
  lemma IterationStep(prev: seq<Effect>, r: Request, p: nat)
    ensures Posts(prev + [Post(r), SetUploadProgress(p)]) == Posts(prev) + [r]
    ensures Reports(prev + [Post(r), SetUploadProgress(p)]) == Reports(prev) + [p]
  {
    var post, report := Post(r), SetUploadProgress(p);
    assert prev + [post, report] == prev + [post] + [report];
    SingleEffect(post);
    SingleEffect(report);
    assert Posts(prev + [post, report]) == Posts(prev) + [r] by {
      PostsAppend(prev, [post]);
      PostsAppend(prev + [post], [report]);
    }
    assert Reports(prev + [post, report]) == Reports(prev) + [p] by {
      ReportsAppend(prev, [post]);
      ReportsAppend(prev + [post], [report]);
    }
  }

  /** After `k` iterations the loop has posted exactly the first `k` planned requests. */
  lemma {:induction false} LoopPosts(f: File, fileId: string, k: nat)
    requires k <= TotalChunks(|f.data|)
    ensures Posts(LoopEffects(f, fileId, k)) == Plan(f, fileId)[..k]
  {
    if k > 0 {
      var n := TotalChunks(|f.data|);
      var r := ChunkRequest(f, fileId, k - 1);
      var prev := LoopEffects(f, fileId, k - 1);
      LoopPosts(f, fileId, k - 1);
      IterationStep(prev, r, Progress(k - 1, n));
      PlanStep(f, fileId, k - 1);
    }
  }

  /** After `k` iterations the loop has reported the progress of chunks 0 to `k - 1`, in order. */
  lemma {:induction false} LoopReports(f: File, fileId: string, k: nat)
    requires k <= TotalChunks(|f.data|)
    ensures |Reports(LoopEffects(f, fileId, k))| == k
    ensures forall i :: 0 <= i < k ==> Reports(LoopEffects(f, fileId, k))[i] == Progress(i, TotalChunks(|f.data|))
  {
    if k > 0 {
      var n := TotalChunks(|f.data|);
      var prev := LoopEffects(f, fileId, k - 1);
      var p := Progress(k - 1, n);
      LoopReports(f, fileId, k - 1);
      IterationStep(prev, ChunkRequest(f, fileId, k - 1), p);
      var ps := Reports(LoopEffects(f, fileId, k));
      assert ps == Reports(prev) + [p];
      forall i | 0 <= i < k ensures ps[i] == Progress(i, n) {
        if i < k - 1 {
          assert ps[i] == Reports(prev)[i];
        }
      }
    }
  }

  /** The loop itself only posts chunks and reports progress. */
  lemma {:induction false} LoopKinds(f: File, fileId: string, k: nat)
    requires k <= TotalChunks(|f.data|)
    ensures |LoopEffects(f, fileId, k)| == 2 * k
    ensures forall i :: 0 <= i < |LoopEffects(f, fileId, k)| ==>
              LoopEffects(f, fileId, k)[i].Post? || LoopEffects(f, fileId, k)[i].SetUploadProgress?
  {
    if k > 0 {
      LoopKinds(f, fileId, k - 1);
    }
  }

  /**
   * A run sends the planned requests 0, 1, ... in order, up to and including the
   * first one that fails, or all of them: one `file-id` throughout, each
   * `chunk-number` equal to its position and each `total-chunks` equal to the
   * computed count.
   */
  lemma SentRequests(f: File, fileId: string, replies: seq<Reply>)
    requires Answers(f, replies)
    ensures Sent(f, replies) <= TotalChunks(|f.data|)
    ensures Posts(UploadEffects(f, fileId, replies)) == Plan(f, fileId)[..Sent(f, replies)]
    ensures forall i :: 0 <= i < |Posts(UploadEffects(f, fileId, replies))| ==>
              var r := Posts(UploadEffects(f, fileId, replies))[i];
              r.fileId == fileId && r.chunkNumber == i && r.totalChunks == TotalChunks(|f.data|)
  {
    RunPosts(f, fileId, replies);
    var posts := Posts(UploadEffects(f, fileId, replies));
    forall i | 0 <= i < |posts|
      ensures posts[i].fileId == fileId && posts[i].chunkNumber == i && posts[i].totalChunks == TotalChunks(|f.data|)
    {
      PlanMetadata(f, fileId, i);
    }
  }

  lemma RunPosts(f: File, fileId: string, replies: seq<Reply>)
    requires Answers(f, replies)
    ensures Sent(f, replies) <= TotalChunks(|f.data|)
    ensures Posts(UploadEffects(f, fileId, replies)) == Plan(f, fileId)[..Sent(f, replies)]
  {
    var n := TotalChunks(|f.data|);
    var d := Delivered(replies, n);
    var head: seq<Effect> := [SetLoading(true), SetGraphData(EmptyGraph)];
    var loop := LoopEffects(f, fileId, d);
    var tail := Outcome(f, fileId, replies);
    var off: seq<Effect> := [SetLoading(false)];
    assert UploadEffects(f, fileId, replies) == head + loop + tail + off;
    NoPosts(head);
    NoPosts(off);
    PostsOfPieces(head, loop, tail, off);
    LoopPosts(f, fileId, d);
    OutcomeTrace(f, fileId, replies);
    if d < n {
      PlanStep(f, fileId, d);
    }
  }

  /** The posts of a run's pieces, when the first and last piece post nothing. */
  lemma PostsOfPieces(head: seq<Effect>, loop: seq<Effect>, tail: seq<Effect>, off: seq<Effect>)
    requires Posts(head) == [] && Posts(off) == []
    ensures Posts(head + loop + tail + off) == Posts(loop) + Posts(tail)
  {
    PostsAppend(head, loop);
    PostsAppend(head + loop, tail);
    PostsAppend(head + loop + tail, off);
  }

  lemma PlanStep(f: File, fileId: string, k: nat)
    requires k < TotalChunks(|f.data|)
    ensures Plan(f, fileId)[..k + 1] == Plan(f, fileId)[..k] + [ChunkRequest(f, fileId, k)]
  {
    assert Plan(f, fileId)[k] == ChunkRequest(f, fileId, k);
  }

  lemma {:induction false} NoPosts(es: seq<Effect>)
    requires forall i :: 0 <= i < |es| ==> !es[i].Post?
    ensures Posts(es) == []
  {
    if es != [] {
      NoPosts(es[1..]);
    }
  }

  /**
   * After chunk `k` the run reports `Progress(k, totalChunks)`, one report per
   * delivered chunk; the reports never decrease, stay within 100, and the last
   * one is 100 when every chunk went through.
   */
  lemma ReportedProgress(f: File, fileId: string, replies: seq<Reply>)
    requires Answers(f, replies)
    ensures var ps := Reports(UploadEffects(f, fileId, replies));
      && |ps| == Delivered(replies, TotalChunks(|f.data|))
      && (forall i :: 0 <= i < |ps| ==> ps[i] == Progress(i, TotalChunks(|f.data|)) && ps[i] <= 100)
      && (forall i, j :: 0 <= i <= j < |ps| ==> ps[i] <= ps[j])
      && (|ps| == TotalChunks(|f.data|) > 0 ==> ps[|ps| - 1] == 100)
  {
    var n := TotalChunks(|f.data|);
    var d := Delivered(replies, n);
    RunReports(f, fileId, replies);
    var ps := Reports(UploadEffects(f, fileId, replies));
    forall i | 0 <= i < d ensures ps[i] <= 100 {
      ProgressBounds(i, n);
    }
    forall i, j | 0 <= i <= j < d ensures ps[i] <= ps[j] {
      ProgressMonotone(i, j, n);
    }
    if d == n > 0 {
      ProgressBounds(n - 1, n);
    }
  }

  lemma RunReports(f: File, fileId: string, replies: seq<Reply>)
    requires Answers(f, replies)
    ensures |Reports(UploadEffects(f, fileId, replies))| == Delivered(replies, TotalChunks(|f.data|))
    ensures forall i :: 0 <= i < |Reports(UploadEffects(f, fileId, replies))| ==>
              Reports(UploadEffects(f, fileId, replies))[i] == Progress(i, TotalChunks(|f.data|))
  {
    var d := Delivered(replies, TotalChunks(|f.data|));
    var head: seq<Effect> := [SetLoading(true), SetGraphData(EmptyGraph)];
    var loop := LoopEffects(f, fileId, d);
    var tail := Outcome(f, fileId, replies);
    var off: seq<Effect> := [SetLoading(false)];
    assert UploadEffects(f, fileId, replies) == head + loop + tail + off;
    NoReports(head);
    NoReports(off);
    OutcomeTrace(f, fileId, replies);
    ReportsOfPieces(head, loop, tail, off);
    LoopReports(f, fileId, d);
  }

  /** Only the loop piece of a run reports progress. */
  lemma ReportsOfPieces(head: seq<Effect>, loop: seq<Effect>, tail: seq<Effect>, off: seq<Effect>)
    requires Reports(head) == [] && Reports(tail) == [] && Reports(off) == []
    ensures Reports(head + loop + tail + off) == Reports(loop)
  {
    ReportsAppend(head, loop);
    ReportsAppend(head + loop, tail);
    ReportsAppend(head + loop + tail, off);
  }

  lemma {:induction false} NoReports(es: seq<Effect>)
    requires forall i :: 0 <= i < |es| ==> !es[i].SetUploadProgress?
    ensures Reports(es) == []
  {
    if es != [] {
      NoReports(es[1..]);
    }
  }

  /**
   * The order of a run: `loading` goes on and the graph is cleared before any
   * request is sent; `loading` stays on until the single final step turns it
   * off; the only other graph installed comes after the last request, and it is
   * the run's resulting graph.
   */
  lemma EffectOrder(f: File, fileId: string, replies: seq<Reply>)
    requires Answers(f, replies)
    ensures var es := UploadEffects(f, fileId, replies);
      && 3 <= |es|
      && es[0] == SetLoading(true) && es[1] == SetGraphData(EmptyGraph) && es[|es| - 1] == SetLoading(false)
      && (forall i :: 0 < i < |es| - 1 ==> !es[i].SetLoading?)
      && (forall i :: 1 < i < |es| && es[i].SetGraphData? ==> i == |es| - 2 && es[i].graph == Installed(f, replies))
      && (forall i :: 0 <= i < |es| && es[i].Post? ==> 1 < i)
      && (forall i, j :: 0 <= i < j < |es| && es[i].SetGraphData? && es[j].Post? ==> es[i].graph == EmptyGraph)
  {
    var n := TotalChunks(|f.data|);
    var d := Delivered(replies, n);
    LoopKinds(f, fileId, d);
    var es := UploadEffects(f, fileId, replies);
    var loop := LoopEffects(f, fileId, d);
    assert forall i :: 2 <= i < 2 + |loop| ==> es[i] == loop[i - 2];
  }

  /** Transport answers that agree on which chunks fail decide alike how many chunks go through. */
  lemma {:induction false} DeliveredByFailures(r1: seq<Reply>, r2: seq<Reply>, n: nat)
    requires n <= |r1| && n <= |r2|
    requires forall k :: 0 <= k < n ==> r1[k].Fail? == r2[k].Fail?
    ensures Delivered(r1, n) == Delivered(r2, n)
  {
    if n > 0 && r1[0].Ok? {
      DeliveredByFailures(r1[1..], r2[1..], n - 1);
    }
  }

  /**
   * Only the final response counts: replacing the body of any earlier
   * successful response, or any answer the loop never reaches, changes nothing
   * the run does.
   */
  lemma LastResponseWins(f: File, fileId: string, replies: seq<Reply>, j: nat, other: Reply)
    requires Answers(f, replies)
    requires j < |replies| && j != TotalChunks(|f.data|) - 1
    requires j < TotalChunks(|f.data|) ==> replies[j].Ok? && other.Ok?
    ensures Answers(f, replies[j := other])
    ensures UploadEffects(f, fileId, replies[j := other]) == UploadEffects(f, fileId, replies)
    ensures Installed(f, replies[j := other]) == Installed(f, replies)
  {
    var n := TotalChunks(|f.data|);
    var changed := replies[j := other];
    DeliveredByFailures(replies, changed, n);
    var d := Delivered(replies, n);
    if d == n && n > 0 {
      assert LastBody(changed, n) == LastBody(replies, n);
    }
  }

  /** How many chunks go through depends only on the answers up to and including the first failure. */
  lemma {:induction false} DeliveredByPrefix(r1: seq<Reply>, r2: seq<Reply>, n: nat)
    requires n <= |r1| && n <= |r2|
    requires forall k :: 0 <= k <= Delivered(r1, n) && k < n ==> r1[k] == r2[k]
    ensures Delivered(r1, n) == Delivered(r2, n)
  {
    if n > 0 {
      assert r1[0] == r2[0];
      if r1[0].Ok? {
        forall k | 0 <= k <= Delivered(r1[1..], n - 1) && k < n - 1
          ensures r1[1..][k] == r2[1..][k]
        {
          assert r1[k + 1] == r2[k + 1];
        }
        DeliveredByPrefix(r1[1..], r2[1..], n - 1);
      }
    }
  }

  /**
   * Once a request fails the loop is left, so any answer after the first
   * failure, or at or beyond position `totalChunks`, can be replaced by any
   * other without changing what the run does.
   */
  lemma UnreachedAnswer(f: File, fileId: string, replies: seq<Reply>, j: nat, other: Reply)
    requires Answers(f, replies)
    requires Delivered(replies, TotalChunks(|f.data|)) < j || TotalChunks(|f.data|) <= j
    requires j < |replies|
    ensures Answers(f, replies[j := other])
    ensures UploadEffects(f, fileId, replies[j := other]) == UploadEffects(f, fileId, replies)
    ensures Installed(f, replies[j := other]) == Installed(f, replies)
  {
    var n := TotalChunks(|f.data|);
    var changed := replies[j := other];
    DeliveredByPrefix(replies, changed, n);
    if Delivered(replies, n) == n && n > 0 {
      assert LastBody(changed, n) == LastBody(replies, n);
    }
  }

  /**
   * A zero-byte file makes no chunks: nothing is sent, no progress is reported,
   * and the run ends in the "no graph data" branch with the empty graph.
   */
  lemma ZeroByteUpload(f: File, fileId: string, replies: seq<Reply>, before: nat)
    requires |f.data| == 0
    ensures TotalChunks(|f.data|) == 0
    ensures UploadEffects(f, fileId, replies) == [SetLoading(true), SetGraphData(EmptyGraph), SetLoading(false)]
    ensures Installed(f, replies) == EmptyGraph
    ensures ProgressAfter(before, f, replies) == before
  {
    assert TotalChunks(0) == 0;
    assert Delivered(replies, 0) == 0;
    assert LoopEffects(f, fileId, 0) == [];
  }

  /**
   * The progress left on screen after a run is a percentage, and it is 100 (so
   * the progress line is hidden) once every chunk of a non-empty file went through.
   */
  lemma ProgressAfterRun(before: nat, f: File, replies: seq<Reply>)
    requires Answers(f, replies) && before <= 100
    ensures ProgressAfter(before, f, replies) <= 100
    ensures 0 < TotalChunks(|f.data|) == Delivered(replies, TotalChunks(|f.data|)) ==> ProgressAfter(before, f, replies) == 100
  {
    var n := TotalChunks(|f.data|);
    var d := Delivered(replies, n);
    if d > 0 {
      ProgressBounds(d - 1, n);
    }
  }
}
