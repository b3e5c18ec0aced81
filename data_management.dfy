/** The data-management page: the batch download job with its progress bar
    and cancel button, and the three other per-city loops of the page
    (completeness check, delete preview, delete). Each awaited backend call
    is an input: `reply(i)` is what the i-th call of a loop returned or threw. */
module DataManagement {
  import opened Wrappers
  import opened Text
  import opened CommonUtils

  /** What an awaited backend call gave back: the JSON body's `code` and
      `data`, or an exception with its message. */
  datatype Reply<T> = Replied(code: int, data: T) | Threw(message: string)

  const NoCityMessage: string := "请至少选择一个城市"
  const NoTargetMessage: string := "没有可操作的城市"
  const NoDateBoundMessage: string := "请至少指定开始日期或结束日期，以防止误删全部数据"

  /** How the page names a city: by the name it knows for the id, or by the id alone. */
  datatype CityLabel = Named(name: string) | Unnamed(id: int)

  function LabelOf(names: map<int, string>, id: int): CityLabel
  {
    if id in names then Named(names[id]) else Unnamed(id)
  }

  /** The label's text in the download messages: an unknown city is `ID:<id>`. */
  function DownloadLabelText(l: CityLabel): string
  {
    match l
    case Named(name) => name
    case Unnamed(id) => "ID:" + IntToDecimal(id)
  }

  /** The label's text in the completeness list: an unknown city is the bare id. */
  function CheckLabelText(l: CityLabel): string
  {
    match l
    case Named(name) => name
    case Unnamed(id) => IntToDecimal(id)
  }

  /** A known city is shown by its name in both places; an unknown one is
      `ID:` and its id in the download messages and the bare id in the
      completeness list, so two unknown cities are told apart in each. */
  lemma LabelTexts(l: CityLabel, other: int)
    ensures l.Named? ==> DownloadLabelText(l) == CheckLabelText(l) == l.name
    ensures l.Unnamed? ==> DownloadLabelText(l) == "ID:" + CheckLabelText(l)
    ensures l.Unnamed? ==> (CheckLabelText(l) == CheckLabelText(Unnamed(other)) <==> l.id == other)
    ensures l.Unnamed? ==> (DownloadLabelText(l) == DownloadLabelText(Unnamed(other)) <==> l.id == other)
  {
    if l.Unnamed? {
      IntToDecimalInjective(l.id, other);
      if DownloadLabelText(l) == DownloadLabelText(Unnamed(other)) {
        assert CheckLabelText(l) == DownloadLabelText(l)[3..];
        assert CheckLabelText(Unnamed(other)) == DownloadLabelText(Unnamed(other))[3..];
      }
    }
  }

  // ----- progress -----

  /** `Math.round(completed / total * 100)`: the nearest integer to the exact
      percentage, halves rounded up. */
  function Percent(completed: nat, total: nat): int
    requires total > 0
  {
    (200 * completed + total) / (2 * total)
  }

  /** `Percent` is the rounding of `100 * completed / total` to the nearest
      integer, a half going up: `p - 1/2 <= 100 * completed / total < p + 1/2`. */
  lemma PercentRounds(completed: nat, total: nat)
    requires total > 0
    ensures var p := Percent(completed, total);
      2 * total * p <= 200 * completed + total < 2 * total * p + 2 * total
  {
    var a, b := 200 * completed + total, 2 * total;
    assert a == (a / b) * b + a % b;
  }

  /** The percentage shown never leaves 0..100, is 0 at the start, 100 when
      everything is done, and never goes down as cities complete. */
  lemma PercentBounds(completed: nat, total: nat)
    requires 0 < total && completed <= total
    ensures 0 <= Percent(completed, total) <= 100
    ensures completed == 0 ==> Percent(completed, total) == 0
    ensures completed == total ==> Percent(completed, total) == 100
  {
    var p := Percent(completed, total);
    PercentRounds(completed, total);
    if p < 0 {
      assert 2 * total * p < 0 by { NegTimesPos(p, 2 * total); }
    }
    if p > 100 {
      assert 2 * total * p >= 2 * total * 101 by { MulLeftMono(2 * total, 101, p); }
    }
    if completed == 0 && p > 0 {
      MulLeftMono(2 * total, 1, p);
    }
    if completed == total && p < 100 {
      assert 2 * total * p <= 2 * total * 99 by { MulLeftMono(2 * total, p, 99); }
    }
  }

  lemma PercentMonotone(c1: nat, c2: nat, total: nat)
    requires 0 < total && c1 <= c2
    ensures Percent(c1, total) <= Percent(c2, total)
  {
    var p1, p2 := Percent(c1, total), Percent(c2, total);
    PercentRounds(c1, total);
    PercentRounds(c2, total);
    if p1 > p2 {
      assert 2 * total * p1 >= 2 * total * (p2 + 1) by { MulLeftMono(2 * total, p2 + 1, p1); }
    }
  }

  lemma MulLeftMono(k: nat, x: int, y: int)
    requires x <= y
    ensures k * x <= k * y
  {
    assert k * y == k * x + k * (y - x);
  }

  lemma NegTimesPos(x: int, k: nat)
    requires x < 0 && k > 0
    ensures k * x < 0
  {
    MulLeftMono(k, x, -1);
  }

  /** What the progress area shows before a city's request: the percentage
      done, "position/total" and the city. */
  datatype ProgressView = ProgressView(completed: nat, position: nat, total: nat, cityLabel: CityLabel)

  /** The bar's width and label: `Percent(completed, total)` per cent. */
  function ShownPercent(v: ProgressView): int
    requires v.total > 0
  {
    Percent(v.completed, v.total)
  }

  // ----- cancellation -----

  /** The number of cities requested, counting from position `k`, when
      `cancelClicked(j)` says the cancel button was pressed while request j
      was awaited. The flag is read before each request, so a click stops the
      job before the next city and never aborts the request in flight. */
  function StopFrom(n: nat, cancelClicked: nat -> bool, k: nat): nat
    requires k <= n
    decreases n - k
  {
    if k == n then n
    else if k > 0 && cancelClicked(k - 1) then k
    else StopFrom(n, cancelClicked, k + 1)
  }

  function StopPoint(n: nat, cancelClicked: nat -> bool): (k: nat)
    ensures k <= n
    ensures forall j :: 0 <= j && j + 1 < k ==> !cancelClicked(j)
    ensures k < n ==> k > 0 && cancelClicked(k - 1)
  {
    StopFromSpec(n, cancelClicked, 0);
    StopFrom(n, cancelClicked, 0)
  }

  lemma {:induction false} StopFromSpec(n: nat, cancelClicked: nat -> bool, k: nat)
    requires k <= n
    requires forall j :: 0 <= j && j + 1 < k ==> !cancelClicked(j)
    ensures k <= StopFrom(n, cancelClicked, k) <= n
    ensures forall j :: 0 <= j && j + 1 < StopFrom(n, cancelClicked, k) ==> !cancelClicked(j)
    ensures StopFrom(n, cancelClicked, k) < n ==>
      StopFrom(n, cancelClicked, k) > 0 && cancelClicked(StopFrom(n, cancelClicked, k) - 1)
    decreases n - k
  {
    if k < n && !(k > 0 && cancelClicked(k - 1)) {
      StopFromSpec(n, cancelClicked, k + 1);
    }
  }

  /** Without a click every city is requested; a click during request j
      means exactly cities 0..j are requested (for the first such j). */
  lemma StopPointCases(n: nat, cancelClicked: nat -> bool, j: nat)
    ensures (forall i :: 0 <= i < n ==> !cancelClicked(i)) ==> StopPoint(n, cancelClicked) == n
    ensures j < n && cancelClicked(j) && (forall i :: 0 <= i < j ==> !cancelClicked(i)) ==>
      StopPoint(n, cancelClicked) == if j + 1 < n then j + 1 else n
  {
  }

  /** The error shown when the request for a city throws: the city and the
      exception's message. */
  datatype ShownError = ShownError(cityLabel: CityLabel, message: string)

  /** The error's text on the page. */
  function FailureMessage(e: ShownError): string
  {
    "下载 " + DownloadLabelText(e.cityLabel) + " 失败: " + e.message
  }

  /** The error line names the city as the download messages do and ends
      with the exception's message; for the same message, two lines are
      equal exactly when they name the city alike. */
  lemma FailureMessageParts(e: ShownError, other: ShownError)
    ensures "下载 " <= FailureMessage(e)
    ensures |FailureMessage(e)| >= |e.message| &&
      FailureMessage(e)[|FailureMessage(e)| - |e.message|..] == e.message
    ensures other.message == e.message ==>
      (FailureMessage(e) == FailureMessage(other) <==>
       DownloadLabelText(e.cityLabel) == DownloadLabelText(other.cityLabel))
  {
    var m := FailureMessage(e);
    var tail := " 失败: " + e.message;
    assert m == "下载 " + DownloadLabelText(e.cityLabel) + tail;
    assert m[..3] == "下载 ";
    assert m[|m| - |e.message|..] == e.message;
    if other.message == e.message && m == FailureMessage(other) {
      assert FailureMessage(other) == "下载 " + DownloadLabelText(other.cityLabel) + tail;
      assert DownloadLabelText(e.cityLabel) == m[3..|m| - |tail|] == DownloadLabelText(other.cityLabel);
    }
  }

  /** What a job did: the cities requested, in order, the progress shown
      before each request, and the errors shown. */
  datatype DownloadRun = DownloadRun(requested: seq<int>, progress: seq<ProgressView>, errorsShown: seq<ShownError>)

  /** Before the request for the city at position `k` of `ids`: the city is
      recorded as requested and the progress area shows it. */
  function Announce(before: DownloadRun, names: map<int, string>, ids: seq<int>, k: nat): DownloadRun
    requires k < |ids|
  {
    DownloadRun(before.requested + [ids[k]],
                before.progress + [ProgressView(k, k + 1, |ids|, LabelOf(names, ids[k]))],
                before.errorsShown)
  }

  /** After that request: one error message if it threw (other codes are
      only logged). */
  function Settle(announced: DownloadRun, names: map<int, string>, ids: seq<int>, k: nat, r: Reply<()>): DownloadRun
    requires k < |ids|
  {
    if r.Threw? then
      DownloadRun(announced.requested, announced.progress,
                  announced.errorsShown + [ShownError(LabelOf(names, ids[k]), r.message)])
    else announced
  }

  /** One request of the job, at position `k` of `ids`, from the progress
      update to the reply. */
  function JobStep(before: DownloadRun, names: map<int, string>, ids: seq<int>, reply: nat -> Reply<()>, k: nat): DownloadRun
    requires k < |ids|
  {
    Settle(Announce(before, names, ids, k), names, ids, k, reply(k))
  }

  /** The record of a job over `ids` after its first `k` requests. */
  function RunAfter(names: map<int, string>, ids: seq<int>, reply: nat -> Reply<()>, k: nat): DownloadRun
    requires k <= |ids|
  {
    if k == 0 then DownloadRun([], [], [])
    else JobStep(RunAfter(names, ids, reply, k - 1), names, ids, reply, k - 1)
  }

  lemma JobStepParts(before: DownloadRun, names: map<int, string>, ids: seq<int>, reply: nat -> Reply<()>, k: nat)
    requires k < |ids|
    ensures JobStep(before, names, ids, reply, k).requested == before.requested + [ids[k]]
    ensures JobStep(before, names, ids, reply, k).progress ==
      before.progress + [ProgressView(k, k + 1, |ids|, LabelOf(names, ids[k]))]
    ensures reply(k).Threw? ==>
      JobStep(before, names, ids, reply, k).errorsShown ==
      before.errorsShown + [ShownError(LabelOf(names, ids[k]), reply(k).message)]
    ensures !reply(k).Threw? ==> JobStep(before, names, ids, reply, k).errorsShown == before.errorsShown
  {
  }

  lemma RunAfterUnfold(names: map<int, string>, ids: seq<int>, reply: nat -> Reply<()>, k: nat)
    requires 0 < k <= |ids|
    ensures var before := RunAfter(names, ids, reply, k - 1);
      var after := RunAfter(names, ids, reply, k);
      var cityLabel := LabelOf(names, ids[k - 1]);
      after.requested == before.requested + [ids[k - 1]] &&
      after.progress == before.progress + [ProgressView(k - 1, k, |ids|, cityLabel)] &&
      after.errorsShown == before.errorsShown + (if reply(k - 1).Threw? then [ShownError(cityLabel, reply(k - 1).message)] else [])
  {
    JobStepParts(RunAfter(names, ids, reply, k - 1), names, ids, reply, k - 1);
  }

  /** After k requests the job has asked for exactly the first k cities, in order. */
  lemma {:induction false} RunRequested(names: map<int, string>, ids: seq<int>, reply: nat -> Reply<()>, k: nat)
    requires k <= |ids|
    ensures RunAfter(names, ids, reply, k).requested == ids[..k]
  {
    if k > 0 {
      RunRequested(names, ids, reply, k - 1);
      RunAfterUnfold(names, ids, reply, k);
      assert ids[..k] == ids[..k - 1] + [ids[k - 1]];
    }
  }

  /** Before the j-th request the page showed j of n done, "j+1/n" and that city. */
  lemma {:induction false} RunProgress(names: map<int, string>, ids: seq<int>, reply: nat -> Reply<()>, k: nat)
    requires k <= |ids|
    ensures |RunAfter(names, ids, reply, k).progress| == k
    ensures forall j :: 0 <= j < k ==>
      RunAfter(names, ids, reply, k).progress[j] == ProgressView(j, j + 1, |ids|, LabelOf(names, ids[j]))
  {
    if k > 0 {
      RunProgress(names, ids, reply, k - 1);
      RunAfterUnfold(names, ids, reply, k);
      var before := RunAfter(names, ids, reply, k - 1).progress;
      var after := RunAfter(names, ids, reply, k).progress;
      forall j | 0 <= j < k
        ensures after[j] == ProgressView(j, j + 1, |ids|, LabelOf(names, ids[j]))
      {
        if j < k - 1 {
          assert after[j] == before[j];
        }
      }
    }
  }
  /** The bar shown before each request stays within 0..100 and never moves
      back as the job goes on. */
  lemma ShownPercentRises(names: map<int, string>, ids: seq<int>, reply: nat -> Reply<()>, k: nat, i: nat, j: nat)
    requires k <= |ids| && i <= j < k
    ensures var p := RunAfter(names, ids, reply, k).progress;
      j < |p| && p[i].total > 0 && p[j].total > 0 &&
      ShownPercent(p[i]) == Percent(i, |ids|) &&
      0 <= ShownPercent(p[i]) <= ShownPercent(p[j]) <= 100
  {
    RunProgress(names, ids, reply, k);
    PercentMonotone(i, j, |ids|);
    PercentBounds(i, |ids|);
    PercentBounds(j, |ids|);
  }


  /** At most one error is shown per request, and each names a city whose
      request threw, with the thrown message. */
  lemma {:induction false} RunErrors(names: map<int, string>, ids: seq<int>, reply: nat -> Reply<()>, k: nat)
    requires k <= |ids|
    ensures |RunAfter(names, ids, reply, k).errorsShown| <= k
    ensures forall e :: e in RunAfter(names, ids, reply, k).errorsShown ==>
      exists j :: 0 <= j < k && reply(j).Threw? && e == ShownError(LabelOf(names, ids[j]), reply(j).message)
  {
    if k > 0 {
      RunErrors(names, ids, reply, k - 1);
      RunAfterUnfold(names, ids, reply, k);
      var before := RunAfter(names, ids, reply, k - 1).errorsShown;
      var after := RunAfter(names, ids, reply, k).errorsShown;
      forall e | e in after
        ensures exists j :: 0 <= j < k && reply(j).Threw? && e == ShownError(LabelOf(names, ids[j]), reply(j).message)
      {
        if e !in before {
          assert reply(k - 1).Threw? && e == ShownError(LabelOf(names, ids[k - 1]), reply(k - 1).message);
        }
      }
    }
  }

  /** A download button press: ignored while a job runs, refused with a
      message, or the start of a job. */
  datatype DownloadStart = Ignored | Refused(message: string) | Started

  /** The page-wide download state and the job it drives. The job awaits one
      request at a time and the page stays live meanwhile: the cancel button
      and both download buttons can be pressed while a request is awaited.
      `jobIds` are the job's cities, `names` the names the page knows for
      them, and `shown` what the job has requested, shown and reported. */
  class DownloadState {
    var isDownloading: bool
    var cancelRequested: bool
    var totalChunks: nat
    var completedChunks: nat
    var jobIds: seq<int>
    var names: map<int, string>
    var shown: DownloadRun

    /** The counter never passes the total, and while a job runs the request
        for the city at the counter is the one awaited. */
    predicate Valid()
      reads this
    {
      completedChunks <= totalChunks && totalChunks == |jobIds| &&
      (isDownloading ==> completedChunks < totalChunks)
    }

    constructor ()
      ensures Valid()
      ensures !isDownloading && !cancelRequested && totalChunks == 0 && completedChunks == 0
      ensures jobIds == [] && names == map[] && shown == DownloadRun([], [], [])
    {
      isDownloading := false;
      cancelRequested := false;
      totalChunks := 0;
      completedChunks := 0;
      jobIds, names, shown := [], map[], DownloadRun([], [], []);
    }

    /** The cancel button's click handler. */
    method RequestCancel()
      modifies this`cancelRequested
      ensures cancelRequested
    {
      cancelRequested := true;
    }

    /** The head of the job's loop: the flag is read before each city; the
        job ends when the flag is set or every city was attempted, and
        otherwise the next city is announced and its request awaited. */
    method NextCity()
      requires completedChunks <= totalChunks == |jobIds|
      modifies this`isDownloading, this`shown
      ensures isDownloading <==> !cancelRequested && completedChunks < totalChunks
      ensures isDownloading ==> shown == Announce(old(shown), names, jobIds, completedChunks)
      ensures !isDownloading ==> shown == old(shown)
    {
      if cancelRequested || completedChunks == totalChunks {
        isDownloading := false;
      } else {
        shown := Announce(shown, names, jobIds, completedChunks);
        isDownloading := true;
      }
    }

    /** `startBatchDownload` up to its first await: the state is reset for a
        job over `cityIds`, then the head of the loop runs. */
    method StartBatchDownload(cityIds: seq<int>, cityNames: map<int, string>)
      modifies this
      ensures Valid()
      ensures jobIds == cityIds && names == cityNames
      ensures totalChunks == |cityIds| && completedChunks == 0 && !cancelRequested
      ensures isDownloading <==> |cityIds| > 0
      ensures isDownloading ==> shown == Announce(DownloadRun([], [], []), cityNames, cityIds, 0)
      ensures !isDownloading ==> shown == DownloadRun([], [], [])
    {
      isDownloading := true;
      cancelRequested := false;
      totalChunks := |cityIds|;
      completedChunks := 0;
      jobIds, names, shown := cityIds, cityNames, DownloadRun([], [], []);
      NextCity();
    }

    /** The awaited request's outcome arrives: an error is shown if it threw,
        the counter advances whatever the outcome, and the head of the loop
        runs again. */
    method ReplyArrived(r: Reply<()>)
      requires Valid() && isDownloading
      modifies this
      ensures Valid()
      ensures jobIds == old(jobIds) && names == old(names) && totalChunks == old(totalChunks)
      ensures cancelRequested == old(cancelRequested)
      ensures completedChunks == old(completedChunks) + 1
      ensures isDownloading <==> !cancelRequested && completedChunks < totalChunks
      ensures var settled := Settle(old(shown), names, jobIds, old(completedChunks), r);
        (isDownloading ==> shown == Announce(settled, names, jobIds, completedChunks)) &&
        (!isDownloading ==> shown == settled)
    {
      shown := Settle(shown, names, jobIds, completedChunks, r);
      completedChunks := completedChunks + 1;
      NextCity();
    }

    /** A whole job driven by the page's events: `reply(j)` is the outcome of
        the j-th request and `cancelClicked(j)` says the cancel button was
        pressed while it was awaited. The job requests the cities up to
        StopPoint, in order, and ends idle with the counter there. */
    method RunBatchDownload(cityIds: seq<int>, cityNames: map<int, string>,
                            reply: nat -> Reply<()>, cancelClicked: nat -> bool)
      modifies this
      ensures Valid() && !isDownloading
      ensures totalChunks == |cityIds|
      ensures completedChunks == StopPoint(|cityIds|, cancelClicked)
      ensures cancelRequested <==> completedChunks > 0 && cancelClicked(completedChunks - 1)
      ensures shown == RunAfter(cityNames, cityIds, reply, completedChunks)
    {
      StartBatchDownload(cityIds, cityNames);
      var n := |cityIds|;
      while isDownloading
        invariant Valid()
        invariant jobIds == cityIds && names == cityNames && totalChunks == n
        invariant isDownloading ==> !cancelRequested
        invariant cancelRequested <==> completedChunks > 0 && cancelClicked(completedChunks - 1)
        invariant StopFrom(n, cancelClicked, completedChunks) == StopFrom(n, cancelClicked, 0)
        invariant isDownloading ==>
          shown == Announce(RunAfter(cityNames, cityIds, reply, completedChunks), cityNames, cityIds, completedChunks)
        invariant !isDownloading ==>
          shown == RunAfter(cityNames, cityIds, reply, completedChunks) && (cancelRequested || completedChunks == n)
        decreases n - completedChunks
      {
        var k := completedChunks;
        if cancelClicked(k) {
          RequestCancel();
        }
        ReplyArrived(reply(k));
        assert RunAfter(cityNames, cityIds, reply, k + 1) == JobStep(RunAfter(cityNames, cityIds, reply, k), cityNames, cityIds, reply, k);
      }
    }

    /** "Download": ignored while a job runs; otherwise the date range is
        checked, then that some city is ticked, then the job starts. */
    method HandleBatchDownload(selected: seq<int>, start: DateInput, end: DateInput, cityNames: map<int, string>)
      returns (outcome: DownloadStart)
      modifies this
      ensures old(isDownloading) ==> outcome == Ignored && unchanged(this)
      ensures !old(isDownloading) && !ValidateDateRange(start, end).valid ==>
        outcome == Refused(ValidateDateRange(start, end).message.value) && unchanged(this)
      ensures !old(isDownloading) && ValidateDateRange(start, end).valid && |selected| == 0 ==>
        outcome == Refused(NoCityMessage) && unchanged(this)
      ensures outcome == Started <==> !old(isDownloading) && ValidateDateRange(start, end).valid && |selected| > 0
      ensures outcome == Started ==>
        Valid() && isDownloading && !cancelRequested && jobIds == selected && names == cityNames &&
        totalChunks == |selected| && completedChunks == 0 &&
        shown == Announce(DownloadRun([], [], []), cityNames, selected, 0)
    {
      if isDownloading {
        return Ignored;
      }
      var validation := ValidateDateRange(start, end);
      if !validation.valid {
        return Refused(validation.message.value);
      }
      if |selected| == 0 {
        return Refused(NoCityMessage);
      }
      StartBatchDownload(selected, cityNames);
      outcome := Started;
    }

    /** "Download all cities": the same guard and date check, then a job
        over every city the page knows, with no check that there is one (an
        empty list starts a job that ends at once). */
    method HandleDownloadAllCities(allCities: seq<int>, start: DateInput, end: DateInput, cityNames: map<int, string>)
      returns (outcome: DownloadStart)
      modifies this
      ensures old(isDownloading) ==> outcome == Ignored && unchanged(this)
      ensures !old(isDownloading) && !ValidateDateRange(start, end).valid ==>
        outcome == Refused(ValidateDateRange(start, end).message.value) && unchanged(this)
      ensures outcome == Started <==> !old(isDownloading) && ValidateDateRange(start, end).valid
      ensures outcome == Started ==>
        Valid() && !cancelRequested && jobIds == allCities && names == cityNames &&
        totalChunks == |allCities| && completedChunks == 0 &&
        (isDownloading <==> |allCities| > 0) &&
        (isDownloading ==> shown == Announce(DownloadRun([], [], []), cityNames, allCities, 0))
    {
      if isDownloading {
        return Ignored;
      }
      var validation := ValidateDateRange(start, end);
      if !validation.valid {
        return Refused(validation.message.value);
      }
      StartBatchDownload(allCities, cityNames);
      outcome := Started;
    }
  }

  // ----- completeness check -----

  /** One line of the completeness list: a city whose check came back, with
      the "complete" flag and the two numbers it prints (None printing as
      `undefined`), or a city whose check failed. */
  datatype CheckItem =
    | Checked(cityLabel: CityLabel, complete: bool, missing: Option<int>, total: Option<int>)
    | CheckFailed(cityLabel: CityLabel, reason: CheckFailure)

  /** Why a check failed: the request threw with its message, or the reply's
      `data` was null and reading a member of it threw a TypeError, whose
      wording is the browser's and is not modelled. */
  datatype CheckFailure = ThrewMessage(message: string) | NullDataRead

  datatype CheckView = CheckRefused(message: string) | CheckList(items: seq<CheckItem>)

  /** A JavaScript property read on the response's `data` object (its
      integer-valued members): None is `undefined`. */
  function Property(data: map<string, int>, key: string): Option<int>
  {
    if key in data then Some(data[key]) else None
  }

  /** The line for one city as the page builds it: complete iff
      `data.missing_count === 0`, printing `missing_count` and `total_hours`. */
  function CheckItemFor(cityLabel: CityLabel, r: Reply<Option<map<string, int>>>): CheckItem
  {
    match r
    case Threw(m) => CheckFailed(cityLabel, ThrewMessage(m))
    case Replied(_, data) =>
      if data.None? then CheckFailed(cityLabel, NullDataRead)
      else
        var missing := Property(data.value, "missing_count");
        Checked(cityLabel, missing == Some(0), missing, Property(data.value, "total_hours"))
  }

  /** The same line reading the names the completeness report actually
      carries: `missing_days` and `total_days`. */
  function CorrectedCheckItemFor(cityLabel: CityLabel, r: Reply<Option<map<string, int>>>): CheckItem
  {
    match r
    case Threw(m) => CheckFailed(cityLabel, ThrewMessage(m))
    case Replied(_, data) =>
      if data.None? then CheckFailed(cityLabel, NullDataRead)
      else
        var missing := Property(data.value, "missing_days");
        Checked(cityLabel, missing == Some(0), missing, Property(data.value, "total_days"))
  }

  /** "Check completeness": the date range, then that some city is ticked;
      then one check per city, in order, a failing check giving a failure
      line and never stopping the others. Each line reads `missing_count`
      and `total_hours`, as the page does (see CheckItemWithoutMissingCount). */
  method HandleCheckCompleteness(selected: seq<int>, start: DateInput, end: DateInput, names: map<int, string>,
                                 reply: nat -> Reply<Option<map<string, int>>>)
    returns (view: CheckView)
    ensures !ValidateDateRange(start, end).valid ==> view == CheckRefused(ValidateDateRange(start, end).message.value)
    ensures ValidateDateRange(start, end).valid && |selected| == 0 ==> view == CheckRefused(NoCityMessage)
    ensures view.CheckList? <==> ValidateDateRange(start, end).valid && |selected| > 0
    ensures view.CheckList? ==> |view.items| == |selected|
    ensures view.CheckList? ==>
      forall k :: 0 <= k < |selected| ==> view.items[k] == CheckItemFor(LabelOf(names, selected[k]), reply(k))
  {
    var validation := ValidateDateRange(start, end);
    if !validation.valid {
      return CheckRefused(validation.message.value);
    }
    if |selected| == 0 {
      return CheckRefused(NoCityMessage);
    }
    var items: seq<CheckItem> := [];
    var i := 0;
    while i < |selected|
      invariant 0 <= i <= |selected|
      invariant |items| == i
      invariant forall k :: 0 <= k < i ==> items[k] == CheckItemFor(LabelOf(names, selected[k]), reply(k))
    {
      items := items + [CheckItemFor(LabelOf(names, selected[i]), reply(i))];
      i := i + 1;
    }
    view := CheckList(items);
  }

  /** A failing check yields a failure line for that city only. */
  lemma CheckFailureIsolated(cityLabel: CityLabel, message: string)
    ensures CheckItemFor(cityLabel, Threw(message)) == CheckFailed(cityLabel, ThrewMessage(message))
    ensures CorrectedCheckItemFor(cityLabel, Threw(message)) == CheckFailed(cityLabel, ThrewMessage(message))
  {
  }

  /** A report without a `missing_count` member is never shown as complete,
      and its numbers print as `undefined`. */
  lemma CheckItemWithoutMissingCount(cityLabel: CityLabel, code: int, data: map<string, int>)
    requires "missing_count" !in data && "total_hours" !in data
    ensures CheckItemFor(cityLabel, Replied(code, Some(data))) == Checked(cityLabel, false, None, None)
  {
  }

  /** Reading `missing_days`, a city is shown complete exactly when no day is missing. */
  lemma CorrectedCheckItemComplete(cityLabel: CityLabel, code: int, data: map<string, int>)
    requires "missing_days" in data && "total_days" in data
    ensures var item := CorrectedCheckItemFor(cityLabel, Replied(code, Some(data)));
      item.Checked? && (item.complete <==> data["missing_days"] == 0) &&
      item.missing == Some(data["missing_days"]) && item.total == Some(data["total_days"])
  {
  }

  // ----- delete preview -----

  /** The `data` of a preview reply: rows in range, their estimated size, the city. */
  datatype PreviewData = PreviewData(count: int, estimatedSizeMb: real, cityName: string)

  datatype PreviewView =
    | PreviewRefused(message: string)
    | NothingToDelete
    | PreviewFound(totalCount: int, totalSizeMb: real, details: seq<PreviewData>)

  /** A reply counts when its code is 200 and it reports at least one row;
      a null `data` throws inside the loop and is skipped like an exception. */
  predicate Counted(r: Reply<Option<PreviewData>>) {
    r.Replied? && r.code == 200 && r.data.Some? && r.data.value.count > 0
  }

  function PreviewCount(reply: nat -> Reply<Option<PreviewData>>, n: nat): int
  {
    if n == 0 then 0
    else PreviewCount(reply, n - 1) + (if Counted(reply(n - 1)) then reply(n - 1).data.value.count else 0)
  }

  function PreviewSize(reply: nat -> Reply<Option<PreviewData>>, n: nat): real
  {
    if n == 0 then 0.0
    else PreviewSize(reply, n - 1) + (if Counted(reply(n - 1)) then reply(n - 1).data.value.estimatedSizeMb else 0.0)
  }

  function PreviewDetails(reply: nat -> Reply<Option<PreviewData>>, n: nat): (details: seq<PreviewData>)
    ensures |details| <= n
  {
    if n == 0 then []
    else PreviewDetails(reply, n - 1) + (if Counted(reply(n - 1)) then [reply(n - 1).data.value] else [])
  }

  /** The total is zero ("nothing to delete") exactly when no reply counted,
      and it is at least every counted city's count. */
  lemma {:induction false} PreviewCountZeroIff(reply: nat -> Reply<Option<PreviewData>>, n: nat)
    ensures PreviewCount(reply, n) >= 0
    ensures PreviewCount(reply, n) == 0 <==> forall i :: 0 <= i < n ==> !Counted(reply(i))
    ensures forall i :: 0 <= i < n && Counted(reply(i)) ==> PreviewCount(reply, n) >= reply(i).data.value.count
  {
    if n > 0 {
      PreviewCountZeroIff(reply, n - 1);
    }
  }

  /** The cities the preview and the delete act on: the ticked ones, or every
      city the page knows when none is ticked. */
  function Targets(selected: seq<int>, allCities: seq<int>): seq<int>
  {
    if |selected| > 0 then selected else allCities
  }

  /** "Preview delete": refused when there is no city at all; otherwise one
      preview per target city, summing the counted replies. */
  method HandlePreviewDeleteData(selected: seq<int>, allCities: seq<int>,
                                 reply: nat -> Reply<Option<PreviewData>>)
    returns (view: PreviewView)
    ensures view.PreviewRefused? <==> |Targets(selected, allCities)| == 0
    ensures view.PreviewRefused? ==> view.message == NoTargetMessage
    ensures var n := |Targets(selected, allCities)|;
      n > 0 ==>
        (view == NothingToDelete <==> forall i :: 0 <= i < n ==> !Counted(reply(i))) &&
        (view.PreviewFound? ==>
          view.totalCount == PreviewCount(reply, n) && view.totalCount > 0 &&
          view.totalSizeMb == PreviewSize(reply, n) && view.details == PreviewDetails(reply, n))
  {
    var targets := if |selected| > 0 then selected else allCities;
    if |targets| == 0 {
      return PreviewRefused(NoTargetMessage);
    }
    var totalCount, totalSizeMb, details := 0, 0.0, [];
    var i := 0;
    while i < |targets|
      invariant 0 <= i <= |targets|
      invariant totalCount == PreviewCount(reply, i)
      invariant totalSizeMb == PreviewSize(reply, i)
      invariant details == PreviewDetails(reply, i)
    {
      match reply(i) {
        case Threw(_) =>
        case Replied(code, data) =>
          if code == 200 && data.Some? && data.value.count > 0 {
            totalCount := totalCount + data.value.count;
            totalSizeMb := totalSizeMb + data.value.estimatedSizeMb;
            details := details + [data.value];
          }
      }
      i := i + 1;
    }
    PreviewCountZeroIff(reply, |targets|);
    if totalCount == 0 {
      view := NothingToDelete;
    } else {
      view := PreviewFound(totalCount, totalSizeMb, details);
    }
  }

  // ----- delete -----

  datatype DeleteView = DeleteAborted | DeleteRefused(message: string) | Deleted(successCount: nat, failCount: nat)

  /** The number of the first `n` replies whose code is 200. */
  function SuccessCount(reply: nat -> Reply<()>, n: nat): (c: nat)
    ensures c <= n
  {
    if n == 0 then 0
    else SuccessCount(reply, n - 1) + (if reply(n - 1).Replied? && reply(n - 1).code == 200 then 1 else 0)
  }

  /** "Delete": with no city ticked the user must first agree to act on all
      cities (`confirmAll`); at least one date bound is required; then the
      final confirmation (`confirmDelete`); then one delete per target city.
      Only code 200 counts as done; any other code or an exception is a
      failure, and a failure never stops the others. */
  method HandleDeleteData(selected: seq<int>, allCities: seq<int>, start: DateInput, end: DateInput,
                          confirmAll: bool, confirmDelete: bool, reply: nat -> Reply<()>)
    returns (view: DeleteView)
    ensures |selected| == 0 && !confirmAll ==> view == DeleteAborted
    ensures (|selected| > 0 || confirmAll) && start.Empty? && end.Empty? ==> view == DeleteRefused(NoDateBoundMessage)
    ensures view.Deleted? <==> (|selected| > 0 || confirmAll) && !(start.Empty? && end.Empty?) && confirmDelete
    ensures view.Deleted? ==>
      view.successCount + view.failCount == |Targets(selected, allCities)| &&
      view.successCount == SuccessCount(reply, |Targets(selected, allCities)|)
  {
    if |selected| == 0 && !confirmAll {
      return DeleteAborted;
    }
    if start.Empty? && end.Empty? {
      return DeleteRefused(NoDateBoundMessage);
    }
    if !confirmDelete {
      return DeleteAborted;
    }
    var successCount, failCount := 0, 0;
    var targets := if |selected| > 0 then selected else allCities;
    var i := 0;
    while i < |targets|
      invariant 0 <= i <= |targets|
      invariant successCount == SuccessCount(reply, i)
      invariant successCount + failCount == i
    {
      match reply(i) {
        case Replied(code, _) =>
          if code == 200 {
            successCount := successCount + 1;
          } else {
            failCount := failCount + 1;
          }
        case Threw(_) =>
          failCount := failCount + 1;
      }
      i := i + 1;
    }
    view := Deleted(successCount, failCount);
  }
}
