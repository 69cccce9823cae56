/**
 * The downloader: `download_image`, its three-attempt retry loop and its
 * failure list, and the run of `scrape_all_images` over every task.
 *
 * The network is a function from the attempt number to what that attempt
 * met; the file system is the set of paths that exist.
 */
module Downloader {
  import opened Wrappers
  import opened Text
  import opened Lists
  import opened Catalog

  /** What one `session.get(...)` attempt meets. */
  datatype Outcome =
    | Timeout
      // `requests.exceptions.Timeout`: the attempt is retried
    | Failed(error: string)
      // any other exception before the file is opened (connection error,
      // `raise_for_status`, the file not opening), with its `str(e)`
    | Responded(contentType: string, body: Body)
      // a response with status OK; `contentType` is "" when the header is missing

  /** How streaming the body into the opened file ends. */
  datatype Body =
    | Complete
    | Broken(error: string)
      // an exception while writing chunks: the file has already been created

  /** An entry of `failed_downloads`. */
  datatype FailureRecord = FailureRecord(url: string, filename: string, error: string)

  const MaxAttempts: nat := 3
  const TimeoutMessage: string := "Timeout after 3 attempts"
  const ImageMarker: string := "image"

  /** `os.path.join(dir, name)` on POSIX. */
  function PathJoin(dir: string, name: string): (r: string)
    ensures |name| <= |r| <= |dir| + 1 + |name|
  {
    if name != [] && name[0] == '/' then name
    else if dir == [] || dir[|dir| - 1] == '/' then dir + name
    else dir + "/" + name
  }

  /** The joined path ends with the name, and an absolute name is taken as is. */
  lemma PathJoinShape(dir: string, name: string)
    ensures name != [] && name[0] == '/' ==> PathJoin(dir, name) == name
    ensures |PathJoin(dir, name)| >= |name| && PathJoin(dir, name)[|PathJoin(dir, name)| - |name|..] == name
  {
  }

  /** Two names without a slash land on the same path exactly when they are equal. */
  lemma PathJoinInjective(dir: string, a: string, b: string)
    requires forall i :: 0 <= i < |a| ==> a[i] != '/'
    requires forall i :: 0 <= i < |b| ==> b[i] != '/'
    ensures PathJoin(dir, a) == PathJoin(dir, b) <==> a == b
  {
    var prefix := if dir == [] || dir[|dir| - 1] == '/' then dir else dir + "/";
    assert PathJoin(dir, a) == prefix + a;
    assert PathJoin(dir, b) == prefix + b;
    assert a == (prefix + a)[|prefix|..];
    assert b == (prefix + b)[|prefix|..];
  }

  /** What the attempt loop of `download_image` comes to, from attempt `attempt` on. */
  datatype Attempt = Attempt(ok: bool, attempts: nat, failure: Option<FailureRecord>, created: bool)

  function Fetch(url: string, filename: string, net: nat -> Outcome, attempt: nat): (r: Attempt)
    requires attempt <= MaxAttempts
    ensures attempt <= r.attempts <= MaxAttempts
    ensures r.ok ==> r.failure.None? && r.created
    decreases MaxAttempts - attempt
  {
    if attempt == MaxAttempts then
      Attempt(false, MaxAttempts, Some(FailureRecord(url, filename, TimeoutMessage)), false)
    else
      match net(attempt)
      case Timeout => Fetch(url, filename, net, attempt + 1)
      case Failed(e) => Attempt(false, attempt + 1, Some(FailureRecord(url, filename, e)), false)
      case Responded(contentType, body) =>
        if !Contains(contentType, ImageMarker) then Attempt(false, attempt + 1, None, false)
        else
          match body
          case Complete => Attempt(true, attempt + 1, None, true)
          case Broken(e) => Attempt(false, attempt + 1, Some(FailureRecord(url, filename, e)), true)
  }

  /** One call of `download_image`: its result, the attempts it made, the
      failure it appends (if any), and the files that exist afterwards. */
  datatype Download = Download(ok: bool, attempts: nat, failure: Option<FailureRecord>, existing: set<string>)

  function DownloadOutcome(existing: set<string>, dir: string, url: string, filename: string,
                           net: nat -> Outcome): (d: Download)
    ensures d.attempts <= MaxAttempts
    ensures existing <= d.existing
  {
    var path := PathJoin(dir, filename);
    if path in existing then Download(true, 0, None, existing)
    else
      var a := Fetch(url, filename, net, 0);
      Download(a.ok, a.attempts, a.failure, if a.created then existing + {path} else existing)
  }

  function Recorded(failure: Option<FailureRecord>): (records: seq<FailureRecord>)
    ensures |records| <= 1
  {
    match failure
    case None => []
    case Some(f) => [f]
  }

  /** An existing destination: success, no attempt, no failure, no change. */
  lemma SkipWhenExisting(existing: set<string>, dir: string, url: string, filename: string, net: nat -> Outcome)
    requires PathJoin(dir, filename) in existing
    ensures DownloadOutcome(existing, dir, url, filename, net) == Download(true, 0, None, existing)
  {
  }

  /** A missing destination is tried at least once and at most three times. */
  lemma AttemptsWhenMissing(existing: set<string>, dir: string, url: string, filename: string, net: nat -> Outcome)
    requires PathJoin(dir, filename) !in existing
    ensures 1 <= DownloadOutcome(existing, dir, url, filename, net).attempts <= MaxAttempts
  {
    if net(0).Timeout? {
      if net(1).Timeout? {
        assert Fetch(url, filename, net, 0) == Fetch(url, filename, net, 2);
      }
    }
  }

  /** Timeouts on the first `k` attempts are retried: the loop then goes on
      as if it started at attempt `k`. */
  lemma {:induction false} LeadingTimeouts(url: string, filename: string, net: nat -> Outcome, k: nat)
    requires k <= MaxAttempts
    requires forall i :: 0 <= i < k ==> net(i).Timeout?
    ensures Fetch(url, filename, net, 0) == Fetch(url, filename, net, k)
    decreases k
  {
    if k > 0 {
      LeadingTimeouts(url, filename, net, k - 1);
    }
  }

  /** Three timeouts: three attempts, `False`, exactly one failure reading
      "Timeout after 3 attempts", and no file. */
  lemma AllTimeouts(existing: set<string>, dir: string, url: string, filename: string, net: nat -> Outcome)
    requires PathJoin(dir, filename) !in existing
    requires forall i :: 0 <= i < MaxAttempts ==> net(i).Timeout?
    ensures DownloadOutcome(existing, dir, url, filename, net)
            == Download(false, MaxAttempts, Some(FailureRecord(url, filename, TimeoutMessage)), existing)
  {
    LeadingTimeouts(url, filename, net, MaxAttempts);
  }

  /** An error other than a timeout ends the loop at that attempt with
      `False` and exactly one failure carrying the error text. */
  lemma ErrorFailsAtOnce(existing: set<string>, dir: string, url: string, filename: string,
                         net: nat -> Outcome, k: nat)
    requires PathJoin(dir, filename) !in existing
    requires k < MaxAttempts && net(k).Failed?
    requires forall i :: 0 <= i < k ==> net(i).Timeout?
    ensures DownloadOutcome(existing, dir, url, filename, net)
            == Download(false, k + 1, Some(FailureRecord(url, filename, net(k).error)), existing)
  {
    LeadingTimeouts(url, filename, net, k);
  }

  /** A response that is not an image ends the loop with `False` and records
      nothing. */
  lemma NonImageRecordsNothing(existing: set<string>, dir: string, url: string, filename: string,
                               net: nat -> Outcome, k: nat)
    requires PathJoin(dir, filename) !in existing
    requires k < MaxAttempts && net(k).Responded? && !Contains(net(k).contentType, ImageMarker)
    requires forall i :: 0 <= i < k ==> net(i).Timeout?
    ensures DownloadOutcome(existing, dir, url, filename, net) == Download(false, k + 1, None, existing)
  {
    LeadingTimeouts(url, filename, net, k);
  }

  /** A failure is recorded only by a call that returns `False`, and a call
      that returns `True` leaves its file in place. */
  lemma FailureMeansFalse(existing: set<string>, dir: string, url: string, filename: string, net: nat -> Outcome)
    ensures var d := DownloadOutcome(existing, dir, url, filename, net);
            (d.failure.Some? ==> !d.ok) && (d.ok ==> PathJoin(dir, filename) in d.existing)
  {
  }

  /** After a successful call, calling again for the same file takes the skip
      path, whatever the network does then. */
  lemma SuccessThenSkip(existing: set<string>, dir: string, url: string, filename: string,
                        net: nat -> Outcome, later: nat -> Outcome)
    requires DownloadOutcome(existing, dir, url, filename, net).ok
    ensures var d := DownloadOutcome(existing, dir, url, filename, net);
            DownloadOutcome(d.existing, dir, url, filename, later) == Download(true, 0, None, d.existing)
  {
    FailureMeansFalse(existing, dir, url, filename, net);
  }

  /** A body that breaks off leaves the partly written file behind: the call
      fails and records the error, but the next call for that file skips it
      and reports success. */
  lemma BrokenBodyLaterSkipped(existing: set<string>, dir: string, url: string, filename: string,
                               net: nat -> Outcome, later: nat -> Outcome)
    requires PathJoin(dir, filename) !in existing
    requires net(0).Responded? && Contains(net(0).contentType, ImageMarker) && net(0).body.Broken?
    ensures var d := DownloadOutcome(existing, dir, url, filename, net);
            && d == Download(false, 1, Some(FailureRecord(url, filename, net(0).body.error)),
                             existing + {PathJoin(dir, filename)})
            && DownloadOutcome(d.existing, dir, url, filename, later).ok
  {
  }

  lemma AppendRegroup(a: seq<FailureRecord>, b: seq<FailureRecord>, c: seq<FailureRecord>)
    ensures a + (b + c) == (a + b) + c
  {
  }

  /** The tally of a run after its first `n` tasks. */
  datatype RunState = RunState(successes: nat, failures: seq<FailureRecord>, existing: set<string>)

  /** The run of `scrape_all_images`, task by task; task `i` meets the
      network `nets(i)`. The failure list starts empty. */
  function RunPrefix(existing: set<string>, dir: string, tasks: seq<ImageTask>,
                     nets: nat -> nat -> Outcome, n: nat): (r: RunState)
    requires n <= |tasks|
    ensures existing <= r.existing
  {
    if n == 0 then RunState(0, [], existing)
    else
      var st := RunPrefix(existing, dir, tasks, nets, n - 1);
      var d := DownloadOutcome(st.existing, dir, tasks[n - 1].url, tasks[n - 1].filename, nets(n - 1));
      RunState(st.successes + (if d.ok then 1 else 0), st.failures + Recorded(d.failure), d.existing)
  }

  /** Each task adds at most one failure, and only when it did not succeed,
      so successes and failures together never exceed the tasks run; no file
      that existed disappears. */
  lemma {:induction false} RunBound(existing: set<string>, dir: string, tasks: seq<ImageTask>,
                                    nets: nat -> nat -> Outcome, n: nat)
    requires n <= |tasks|
    ensures var st := RunPrefix(existing, dir, tasks, nets, n);
            st.successes + |st.failures| <= n && existing <= st.existing
  {
    if n > 0 {
      RunBound(existing, dir, tasks, nets, n - 1);
      var st := RunPrefix(existing, dir, tasks, nets, n - 1);
      FailureMeansFalse(st.existing, dir, tasks[n - 1].url, tasks[n - 1].filename, nets(n - 1));
    }
  }

  /** The run after `n + 1` tasks is the run after `n`, then task `n`. */
  lemma RunStep(existing: set<string>, dir: string, tasks: seq<ImageTask>, nets: nat -> nat -> Outcome, n: nat)
    requires n < |tasks|
    ensures var st := RunPrefix(existing, dir, tasks, nets, n);
            var d := DownloadOutcome(st.existing, dir, tasks[n].url, tasks[n].filename, nets(n));
            RunPrefix(existing, dir, tasks, nets, n + 1)
            == RunState(st.successes + (if d.ok then 1 else 0), st.failures + Recorded(d.failure), d.existing)
  {
  }

  /** A task that downloads leaves its file among the existing ones. */
  lemma RunSuccessSaved(existing: set<string>, dir: string, tasks: seq<ImageTask>,
                        nets: nat -> nat -> Outcome, i: nat)
    requires i < |tasks|
    requires DownloadOutcome(RunPrefix(existing, dir, tasks, nets, i).existing, dir,
                             tasks[i].url, tasks[i].filename, nets(i)).ok
    ensures PathJoin(dir, tasks[i].filename) in RunPrefix(existing, dir, tasks, nets, i + 1).existing
  {
    var st := RunPrefix(existing, dir, tasks, nets, i);
    FailureMeansFalse(st.existing, dir, tasks[i].url, tasks[i].filename, nets(i));
    RunStep(existing, dir, tasks, nets, i);
  }

  /** No task removes a file. */
  lemma RunExistingGrows(existing: set<string>, dir: string, tasks: seq<ImageTask>,
                         nets: nat -> nat -> Outcome, n: nat)
    requires n < |tasks|
    ensures RunPrefix(existing, dir, tasks, nets, n).existing
            <= RunPrefix(existing, dir, tasks, nets, n + 1).existing
  {
    RunStep(existing, dir, tasks, nets, n);
  }

  /** Every task that succeeded has its file in place once the run is over. */
  lemma {:induction false} RunKeepsSuccesses(existing: set<string>, dir: string, tasks: seq<ImageTask>,
                                             nets: nat -> nat -> Outcome, n: nat, i: nat)
    requires i < n <= |tasks|
    requires DownloadOutcome(RunPrefix(existing, dir, tasks, nets, i).existing, dir,
                             tasks[i].url, tasks[i].filename, nets(i)).ok
    ensures PathJoin(dir, tasks[i].filename) in RunPrefix(existing, dir, tasks, nets, n).existing
    decreases n
  {
    if n == i + 1 {
      RunSuccessSaved(existing, dir, tasks, nets, i);
    } else {
      var before := RunPrefix(existing, dir, tasks, nets, n - 1).existing;
      var after := RunPrefix(existing, dir, tasks, nets, n).existing;
      assert PathJoin(dir, tasks[i].filename) in before by {
        RunKeepsSuccesses(existing, dir, tasks, nets, n - 1, i);
      }
      assert before <= after by {
        RunExistingGrows(existing, dir, tasks, nets, n - 1);
      }
    }
  }

  /** The bound is not an equality: a single task answered with a page that
      is not an image neither succeeds nor records a failure. */
  lemma NonImageLeavesGap(existing: set<string>, dir: string, task: ImageTask, nets: nat -> nat -> Outcome)
    requires PathJoin(dir, task.filename) !in existing
    requires nets(0)(0).Responded? && !Contains(nets(0)(0).contentType, ImageMarker)
    ensures var st := RunPrefix(existing, dir, [task], nets, 1);
            st.successes == 0 && st.failures == [] && st.successes + |st.failures| < 1
  {
    NonImageRecordsNothing(existing, dir, task.url, task.filename, nets(0), 0);
    RunStep(existing, dir, [task], nets, 0);
  }

  /** An HTML page is such a response: "text/html" has no 'i', so no "image". */
  lemma HtmlIsNotImage(contentType: string)
    requires contentType == "text/html"
    ensures !Contains(contentType, ImageMarker)
  {
    assert 'i' !in contentType;
    NotContainsMissingChar(contentType, ImageMarker, 0);
  }

  /** A response of type "image/jpeg" passes the image test. */
  lemma JpegIsImage(contentType: string)
    requires contentType == "image/jpeg"
    ensures Contains(contentType, ImageMarker)
  {
    assert contentType[..|ImageMarker|] == ImageMarker;
  }

  /** A call adds at most its own file. */
  lemma DownloadAddsOwnFile(existing: set<string>, dir: string, url: string, filename: string, net: nat -> Outcome)
    ensures var d := DownloadOutcome(existing, dir, url, filename, net);
            d.existing == existing || d.existing == existing + {PathJoin(dir, filename)}
  {
  }

  /** A call looks at its own destination only: another file existing
      beforehand changes nothing in its outcome, and is still there after it. */
  lemma OtherFileIrrelevant(existing: set<string>, other: string, dir: string, url: string, filename: string,
                            net: nat -> Outcome)
    requires other != PathJoin(dir, filename)
    ensures var d := DownloadOutcome(existing, dir, url, filename, net);
            DownloadOutcome(existing + {other}, dir, url, filename, net)
            == Download(d.ok, d.attempts, d.failure, d.existing + {other})
  {
  }

  /** Two downloads to different destinations do not affect each other: each
      returns the same result and records the same failure whichever runs
      first, and the same files exist afterwards. */
  lemma DistinctDownloadsCommute(existing: set<string>, dir: string, a: ImageTask, na: nat -> Outcome,
                                 b: ImageTask, nb: nat -> Outcome)
    requires PathJoin(dir, a.filename) != PathJoin(dir, b.filename)
    ensures var da := DownloadOutcome(existing, dir, a.url, a.filename, na);
            var db := DownloadOutcome(existing, dir, b.url, b.filename, nb);
            var bAfterA := DownloadOutcome(da.existing, dir, b.url, b.filename, nb);
            var aAfterB := DownloadOutcome(db.existing, dir, a.url, a.filename, na);
            && aAfterB.ok == da.ok && aAfterB.failure == da.failure
            && bAfterA.ok == db.ok && bAfterA.failure == db.failure
            && aAfterB.existing == bAfterA.existing
  {
    var pa, pb := PathJoin(dir, a.filename), PathJoin(dir, b.filename);
    var da := DownloadOutcome(existing, dir, a.url, a.filename, na);
    var db := DownloadOutcome(existing, dir, b.url, b.filename, nb);
    DownloadAddsOwnFile(existing, dir, a.url, a.filename, na);
    DownloadAddsOwnFile(existing, dir, b.url, b.filename, nb);
    if da.existing != existing {
      OtherFileIrrelevant(existing, pa, dir, b.url, b.filename, nb);
    }
    if db.existing != existing {
      OtherFileIrrelevant(existing, pb, dir, a.url, a.filename, na);
    }
  }

  /** Two tasks of one page with different file names have different
      destinations, since a sanitised name holds no '/'. */
  lemma DistinctTaskNamesDistinctPaths(dir: string, containers: seq<Container>, k: nat, l: nat)
    requires k < |FilterMap(ContainerTask, containers)| && l < |FilterMap(ContainerTask, containers)|
    requires FilterMap(ContainerTask, containers)[k].filename != FilterMap(ContainerTask, containers)[l].filename
    ensures var ts := FilterMap(ContainerTask, containers);
            PathJoin(dir, ts[k].filename) != PathJoin(dir, ts[l].filename)
  {
    var ts := FilterMap(ContainerTask, containers);
    TaskNamesHaveNoSlash(containers, k);
    TaskNamesHaveNoSlash(containers, l);
    PathJoinInjective(dir, ts[k].filename, ts[l].filename);
  }

  /** An image answered at the first attempt is saved: `True`, one attempt,
      no failure, and the file now exists. */
  lemma ImageSaved(existing: set<string>, dir: string, url: string, filename: string, net: nat -> Outcome)
    requires PathJoin(dir, filename) !in existing
    requires net(0) == Responded("image/jpeg", Complete)
    ensures DownloadOutcome(existing, dir, url, filename, net)
            == Download(true, 1, None, existing + {PathJoin(dir, filename)})
  {
    JpegIsImage(net(0).contentType);
  }

  /** An HTML answer and then an image for the same file: only the image counts. */
  lemma HtmlThenImage(existing: set<string>, dir: string, a: ImageTask, b: ImageTask, nets: nat -> nat -> Outcome)
    requires a.filename == b.filename && PathJoin(dir, a.filename) !in existing
    requires nets(0)(0) == Responded("text/html", Complete) && nets(1)(0) == Responded("image/jpeg", Complete)
    ensures RunPrefix(existing, dir, [a, b], nets, 2).successes == 1
  {
    HtmlIsNotImage(nets(0)(0).contentType);
    NonImageRecordsNothing(existing, dir, a.url, a.filename, nets(0), 0);
    RunStep(existing, dir, [a, b], nets, 0);
    var st := RunPrefix(existing, dir, [a, b], nets, 1);
    assert st == RunState(0, [], existing);
    ImageSaved(existing, dir, b.url, b.filename, nets(1));
    RunStep(existing, dir, [a, b], nets, 1);
  }

  /** An image and then an HTML answer for the same file: the second task
      finds the file and counts too. */
  lemma ImageThenHtml(existing: set<string>, dir: string, a: ImageTask, b: ImageTask, nets: nat -> nat -> Outcome)
    requires a.filename == b.filename && PathJoin(dir, a.filename) !in existing
    requires nets(0)(0) == Responded("image/jpeg", Complete)
    ensures RunPrefix(existing, dir, [b, a], nets, 2).successes == 2
  {
    var path := PathJoin(dir, a.filename);
    ImageSaved(existing, dir, b.url, b.filename, nets(0));
    RunStep(existing, dir, [b, a], nets, 0);
    var st := RunPrefix(existing, dir, [b, a], nets, 1);
    assert st == RunState(1, [], existing + {path});
    SkipWhenExisting(st.existing, dir, a.url, a.filename, nets(1));
    RunStep(existing, dir, [b, a], nets, 1);
  }

  /** Tasks that share a file name do depend on order: an HTML answer for
      the first and an image for the second give one success, while the
      image first gives two, because the other task then finds the file. */
  lemma SharedNameOrderMatters(existing: set<string>, dir: string, a: ImageTask, b: ImageTask,
                               nets1: nat -> nat -> Outcome, nets2: nat -> nat -> Outcome)
    requires a.filename == b.filename && PathJoin(dir, a.filename) !in existing
    requires nets1(0)(0) == Responded("text/html", Complete) && nets1(1)(0) == Responded("image/jpeg", Complete)
    requires nets2(0)(0) == Responded("image/jpeg", Complete) && nets2(1)(0) == Responded("text/html", Complete)
    ensures RunPrefix(existing, dir, [a, b], nets1, 2).successes == 1
    ensures RunPrefix(existing, dir, [b, a], nets2, 2).successes == 2
  {
    HtmlThenImage(existing, dir, a, b, nets1);
    ImageThenHtml(existing, dir, a, b, nets2);
  }

  /** The scraper: its output directory, its failure list, and the files that exist. */
  class Scraper {
    const outputDir: string
    var failedDownloads: seq<FailureRecord>
    var existing: set<string>

    constructor (outputDir: string, existing: set<string>)
      ensures this.outputDir == outputDir && failedDownloads == [] && this.existing == existing
    {
      this.outputDir := outputDir;
      failedDownloads := [];
      this.existing := existing;
    }

    /** `download_image(img_url, filename)`. */
    method DownloadImage(imgUrl: string, filename: string, net: nat -> Outcome) returns (ok: bool)
      modifies this
      ensures var d := DownloadOutcome(old(existing), outputDir, imgUrl, filename, net);
              && ok == d.ok
              && failedDownloads == old(failedDownloads) + Recorded(d.failure)
              && existing == d.existing
    {
      var filepath := PathJoin(outputDir, filename);
      if filepath in existing {
        return true;
      }
      ghost var result := Fetch(imgUrl, filename, net, 0);
      assert DownloadOutcome(existing, outputDir, imgUrl, filename, net)
             == Download(result.ok, result.attempts, result.failure,
                         if result.created then existing + {filepath} else existing);
      for attempt := 0 to MaxAttempts
        invariant existing == old(existing) && failedDownloads == old(failedDownloads)
        invariant result == Fetch(imgUrl, filename, net, attempt)
      {
        var response := net(attempt);
        if response.Timeout? {
          continue;
        }
        if response.Failed? {
          failedDownloads := failedDownloads + [FailureRecord(imgUrl, filename, response.error)];
          return false;
        }
        var contentType := response.contentType;
        if !Contains(contentType, ImageMarker) {
          return false;
        }
        existing := existing + {filepath};
        if response.body.Broken? {
          failedDownloads := failedDownloads + [FailureRecord(imgUrl, filename, response.body.error)];
          return false;
        }
        return true;
      }
      failedDownloads := failedDownloads + [FailureRecord(imgUrl, filename, TimeoutMessage)];
      return false;
    }

    /** `scrape_all_images` after the page is fetched (`page` is `None` when it
        could not be). It returns the success count it logs, or `None` when it
        stops early, in which case the failure list is left as it was. */
    method ScrapeAllImages(page: Option<seq<Container>>, nets: nat -> nat -> Outcome) returns (successCount: Option<nat>)
      modifies this
      ensures page.None? || FilterMap(ContainerTask, page.value) == [] ==>
                successCount.None? && failedDownloads == old(failedDownloads) && existing == old(existing)
      ensures page.Some? && FilterMap(ContainerTask, page.value) != [] ==>
                var tasks := FilterMap(ContainerTask, page.value);
                var run := RunPrefix(old(existing), outputDir, tasks, nets, |tasks|);
                successCount == Some(run.successes) && failedDownloads == run.failures && existing == run.existing
    {
      if page.None? {
        return None;
      }
      var imageData := ParseImageData(page.value);
      if imageData == [] {
        return None;
      }
      failedDownloads := [];
      var count := DownloadAll(imageData, nets);
      return Some(count);
    }

    /** The executor block of `scrape_all_images`: every task downloaded in
        turn, counting the calls that return `True`. */
    method DownloadAll(imageData: seq<ImageTask>, nets: nat -> nat -> Outcome) returns (successCount: nat)
      modifies this
      ensures var run := RunPrefix(old(existing), outputDir, imageData, nets, |imageData|);
              successCount == run.successes && failedDownloads == old(failedDownloads) + run.failures
              && existing == run.existing
    {
      successCount := 0;
      ghost var start, before := existing, failedDownloads;
      for i := 0 to |imageData|
        invariant var run := RunPrefix(start, outputDir, imageData, nets, i);
                  successCount == run.successes && failedDownloads == before + run.failures
                  && existing == run.existing
      {
        var img := imageData[i];
        ghost var run := RunPrefix(start, outputDir, imageData, nets, i);
        ghost var d := DownloadOutcome(existing, outputDir, img.url, img.filename, nets(i));
        RunStep(start, outputDir, imageData, nets, i);
        AppendRegroup(before, run.failures, Recorded(d.failure));
        var ok := DownloadImage(img.url, img.filename, nets(i));
        if ok {
          successCount := successCount + 1;
        }
      }
    }

    /** `download_single_image`: the first task only, without resetting the
        failure list. `None` when there is no page or no task. */
    method DownloadSingleImage(page: Option<seq<Container>>, net: nat -> Outcome) returns (result: Option<bool>)
      modifies this
      ensures page.None? || FilterMap(ContainerTask, page.value) == [] ==>
                result.None? && failedDownloads == old(failedDownloads) && existing == old(existing)
      ensures page.Some? && FilterMap(ContainerTask, page.value) != [] ==>
                var first := FilterMap(ContainerTask, page.value)[0];
                var d := DownloadOutcome(old(existing), outputDir, first.url, first.filename, net);
                result == Some(d.ok) && failedDownloads == old(failedDownloads) + Recorded(d.failure)
                && existing == d.existing
    {
      if page.None? {
        return None;
      }
      var imageData := ParseImageData(page.value);
      if imageData == [] {
        return None;
      }
      var firstImage := imageData[0];
      var success := DownloadImage(firstImage.url, firstImage.filename, net);
      return Some(success);
    }
  }
}
