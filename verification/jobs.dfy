/** The print-job side of the shop server: accepting an uploaded document
    for a registered shop (`submit_print_job`) and showing a shop's job log
    (`shop_jobs`). Each shop's log is a JSON list in its own file; the model
    keeps all log files in one map from shop id to file, a key being absent
    when the shop has no log file yet. */
module JobQueue {
  import opened Common
  import opened Text
  import opened ShopRegistry

  /** The `copies` field is stored exactly as the form gave it; without it
      the stored value is the integer 1. */
  datatype Copies = DefaultOne | Given(text: string)

  datatype Status = Pending | Completed | Failed

  datatype Job = Job(
    jobId: string,
    shopId: string,
    filename: string,
    filePath: string,
    copies: Copies,
    color: bool,
    paperSize: string,
    status: Status,
    createdAt: string)

  /** The multipart `file` part, as far as the server looks at it. */
  datatype Upload = Upload(filename: string)

  /** What `submit_print_job` takes from the world: the hex form of a fresh
      uuid4, the current time, and whether saving the upload failed. */
  datatype SubmitEnv = SubmitEnv(uuidHex: string, now: string, storageFault: Option<string>)

  /** The job-log files `data/print_jobs/<shop_id>_jobs.json`, by shop id. */
  type JobLogs = map<string, JsonFile<seq<Job>>>

  datatype PrintOptions = PrintOptions(copies: Copies, color: bool, paperSize: string)

  /** A shop's log as the server reads it: no file, or one that does not
      parse, reads as the empty log. */
  function LogOf(logs: JobLogs, shopId: string): (log: seq<Job>)
    ensures shopId in logs && logs[shopId].Parsed? ==> log == logs[shopId].value
    ensures !(shopId in logs && logs[shopId].Parsed?) ==> log == []
  {
    if shopId in logs then ReadList(logs[shopId]) else []
  }

  /** The spellings of "true" in any mix of upper and lower case. */
  predicate SpellsTrue(v: string)
  {
    && |v| == 4
    && v[0] in "tT" && v[1] in "rR" && v[2] in "uU" && v[3] in "eE"
  }

  /** The print options read from the form, with their defaults. */
  function ParseOptions(form: map<string, string>): (opts: PrintOptions)
    ensures "copies" in form ==> opts.copies == Given(form["copies"])
    ensures "copies" !in form ==> opts.copies == DefaultOne
    ensures opts.color <==> "color" in form && SpellsTrue(form["color"])
    ensures opts.paperSize == (if "paper_size" in form then form["paper_size"] else "A4")
  {
    var color := Lower(GetOr(form, "color", "false")) == "true";
    assert color <==> "color" in form && SpellsTrue(form["color"]) by {
      var v := GetOr(form, "color", "false");
      if Lower(v) == "true" {
        assert Lower(v)[0] == 't' && Lower(v)[1] == 'r' && Lower(v)[2] == 'u' && Lower(v)[3] == 'e';
      }
      if "color" in form && SpellsTrue(form["color"]) {
        assert Lower(v) == "true";
      }
    }
    PrintOptions(
      if "copies" in form then Given(form["copies"]) else DefaultOne,
      color,
      GetOr(form, "paper_size", "A4"))
  }

  /** The shop's storage directory `data/print_jobs/<shop_id>`. */
  function JobDir(shopId: string): string
  {
    Join(Join("data", "print_jobs"), shopId)
  }

  /** A path segment with no slash in it. */
  predicate PlainSegment(s: string)
  {
    s != "" && '/' !in s
  }

  /** Where an accepted upload is stored: the shop's directory joined with
      the stored name. */
  function StoredPath(shopId: string, saveName: string): (path: string)
    ensures PlainSegment(shopId) && saveName != "" && saveName[0] != '/' ==>
      path == "data/print_jobs/" + shopId + "/" + saveName
  {
    var dir := JobDir(shopId);
    assert PlainSegment(shopId) ==> dir == "data/print_jobs/" + shopId by {
      if PlainSegment(shopId) {
        assert Join("data", "print_jobs") == "data/print_jobs";
        assert shopId[0] != '/';
      }
    }
    Join(dir, saveName)
  }

  /** The form names a shop that the registry holds. */
  predicate TargetsRegisteredShop(registry: Registry, form: map<string, string>)
  {
    "shop_id" in form && Registered(LoadShops(registry), form["shop_id"])
  }

  /** `submit_print_job`: the form fields and the optional file part,
      against the registry file and the job logs; the state returned is the
      job logs afterwards. */
  function Submit(registry: Registry, logs: JobLogs, form: map<string, string>,
                  file: Option<Upload>, env: SubmitEnv): (out: Step<JobLogs>)
    ensures file.None? ==> out == Step(Err(400, "No file part"), logs)
    ensures file.Some? && file.value.filename == "" ==>
      out == Step(Err(400, "No selected file"), logs)
    ensures file.Some? && file.value.filename != "" && !TargetsRegisteredShop(registry, form) ==>
      out == Step(Err(400, "Invalid shop ID"), logs)
    ensures file.Some? && file.value.filename != "" && TargetsRegisteredShop(registry, form)
            && env.storageFault.Some? ==>
      out == Step(Err(500, env.storageFault.value), logs)
    ensures out.response.Ok? <==>
      file.Some? && file.value.filename != "" && TargetsRegisteredShop(registry, form)
      && env.storageFault.None?
    ensures out.response.Err? ==> out.state == logs
    ensures out.response.Ok? ==>
      var shopId := form["shop_id"];
      var opts := ParseOptions(form);
      var before := LogOf(logs, shopId);
      var after := LogOf(out.state, shopId);
      && out.response == Ok("Print job submitted successfully", "job_" + env.uuidHex)
      && |after| == |before| + 1
      && after[..|before|] == before
      && after[|before|].jobId == out.response.id
      && after[|before|].status == Pending
      && after[|before|].shopId == shopId
      && after[|before|].filename == file.value.filename
      && after[|before|].filePath == StoredPath(shopId, out.response.id + Extension(file.value.filename))
      && after[|before|].copies == opts.copies
      && after[|before|].color == opts.color
      && after[|before|].paperSize == opts.paperSize
      && after[|before|].createdAt == env.now
    ensures out.response.Ok? ==>
      && out.state.Keys == logs.Keys + {form["shop_id"]}
      && forall k :: k in logs && k != form["shop_id"] ==> out.state[k] == logs[k]
  {
    var opts := ParseOptions(form);
    if file.None? then Step(Err(400, "No file part"), logs)
    else if file.value.filename == "" then Step(Err(400, "No selected file"), logs)
    else if "shop_id" !in form || FirstIndex(LoadShops(registry), form["shop_id"]).None? then
      Step(Err(400, "Invalid shop ID"), logs)
    else if env.storageFault.Some? then Step(Err(500, env.storageFault.value), logs)
    else
      var shopId := form["shop_id"];
      var jobId := "job_" + env.uuidHex;
      var saveName := jobId + Extension(file.value.filename);
      var job := Job(jobId, shopId, file.value.filename, StoredPath(shopId, saveName),
                     opts.copies, opts.color, opts.paperSize, Pending, env.now);
      var log := LogOf(logs, shopId) + [job];
      assert log[..|log| - 1] == LogOf(logs, shopId);
      Step(Ok("Print job submitted successfully", jobId), logs[shopId := Parsed(log)])
  }

  /** A submission leaves every other shop's log as it was, and a log file
      that was missing or unreadable becomes a one-job log. */
  lemma SubmitTouchesOnlyItsShop(registry: Registry, logs: JobLogs, form: map<string, string>,
                                 file: Option<Upload>, env: SubmitEnv)
    ensures var out := Submit(registry, logs, form, file, env);
      && (forall k :: (out.response.Err? || k != form["shop_id"]) ==> LogOf(out.state, k) == LogOf(logs, k))
      && (out.response.Ok? && !(form["shop_id"] in logs && logs[form["shop_id"]].Parsed?) ==>
            |LogOf(out.state, form["shop_id"])| == 1)
  {
  }

  /** No two jobs of a log share an id. */
  predicate DistinctJobIds(log: seq<Job>)
  {
    forall i, j :: 0 <= i < j < |log| ==> log[i].jobId != log[j].jobId
  }

  /** When the uuid drawn for a submission is not already in use, job ids
      stay distinct within every shop's log. */
  lemma SubmitKeepsJobIdsDistinct(registry: Registry, logs: JobLogs, form: map<string, string>,
                                  file: Option<Upload>, env: SubmitEnv)
    requires forall k :: DistinctJobIds(LogOf(logs, k))
    requires forall k, i :: 0 <= i < |LogOf(logs, k)| ==> LogOf(logs, k)[i].jobId != "job_" + env.uuidHex
    ensures forall k :: DistinctJobIds(LogOf(Submit(registry, logs, form, file, env).state, k))
  {
    var out := Submit(registry, logs, form, file, env);
    SubmitTouchesOnlyItsShop(registry, logs, form, file, env);
    forall k ensures DistinctJobIds(LogOf(out.state, k)) {
      if out.response.Ok? && k == form["shop_id"] {
        var before := LogOf(logs, k);
        var after := LogOf(out.state, k);
        assert after == before + [after[|before|]];
        AppendFreshKeepsDistinct(before, after[|before|]);
      }
    }
  }

  /** Appending a job whose id no earlier job has keeps the ids distinct. */
  lemma AppendFreshKeepsDistinct(log: seq<Job>, job: Job)
    requires DistinctJobIds(log)
    requires forall i :: 0 <= i < |log| ==> log[i].jobId != job.jobId
    ensures DistinctJobIds(log + [job])
  {
    var ext := log + [job];
    assert forall i :: 0 <= i < |log| ==> ext[i] == log[i];
  }

  /** One submission in a sequence of requests. */
  datatype Submission = Submission(form: map<string, string>, file: Option<Upload>, env: SubmitEnv)

  /** The responses to a sequence of submissions and the logs afterwards. */
  datatype Replay = Replay(responses: seq<Response>, logs: JobLogs)

  /** Submissions handled one after another against a fixed registry. */
  function SubmitAll(registry: Registry, logs: JobLogs, subs: seq<Submission>): (r: Replay)
    ensures |r.responses| == |subs|
    ensures logs.Keys <= r.logs.Keys
    ensures forall k :: LogOf(logs, k) <= LogOf(r.logs, k)
    decreases |subs|
  {
    if subs == [] then Replay([], logs)
    else
      var s := Submit(registry, logs, subs[0].form, subs[0].file, subs[0].env);
      var rest := SubmitAll(registry, s.state, subs[1..]);
      Replay([s.response] + rest.responses, rest.logs)
  }

  /** How many of the submissions were accepted for `shopId`. */
  function AcceptedFor(subs: seq<Submission>, responses: seq<Response>, shopId: string): nat
    requires |responses| == |subs|
  {
    if subs == [] then 0
    else
      var hit := responses[0].Ok? && "shop_id" in subs[0].form && subs[0].form["shop_id"] == shopId;
      (if hit then 1 else 0) + AcceptedFor(subs[1..], responses[1..], shopId)
  }

  /** Over any sequence of submissions a shop's log is only ever extended,
      and it grows by exactly one job per submission accepted for it. */
  lemma {:induction false} LogGrowsByAccepted(registry: Registry, logs: JobLogs,
                                              subs: seq<Submission>, shopId: string)
    ensures var r := SubmitAll(registry, logs, subs);
      && LogOf(logs, shopId) <= LogOf(r.logs, shopId)
      && |LogOf(r.logs, shopId)| == |LogOf(logs, shopId)| + AcceptedFor(subs, r.responses, shopId)
    decreases |subs|
  {
    if subs != [] {
      var s := Submit(registry, logs, subs[0].form, subs[0].file, subs[0].env);
      SubmitTouchesOnlyItsShop(registry, logs, subs[0].form, subs[0].file, subs[0].env);
      LogGrowsByAccepted(registry, s.state, subs[1..], shopId);
      var r := SubmitAll(registry, logs, subs);
      var rest := SubmitAll(registry, s.state, subs[1..]);
      assert r.responses[1..] == rest.responses;
      assert LogOf(logs, shopId) <= LogOf(s.state, shopId);
    }
  }

  /** The operator page for one shop. */
  datatype JobsPage = JobsPage(jobs: seq<Job>, shopId: string, shopName: string)

  /** `shop_jobs`: the shop's whole log, oldest first, with the name of the
      first registry record for the shop. */
  function ShopJobs(registry: Registry, logs: JobLogs, shopId: string): (page: JobsPage)
    ensures page.jobs == LogOf(logs, shopId) && page.shopId == shopId
    ensures !Registered(LoadShops(registry), shopId) ==> page.shopName == ""
    ensures forall i :: IsFirstMatch(LoadShops(registry), shopId, i) ==>
      page.shopName == (if LoadShops(registry)[i].shopName.Some? then LoadShops(registry)[i].shopName.value else shopId)
  {
    var shops := LoadShops(registry);
    var name :=
      match FirstIndex(shops, shopId)
      case None => ""
      case Some(i) => if shops[i].shopName.Some? then shops[i].shopName.value else shopId;
    JobsPage(LogOf(logs, shopId), shopId, name)
  }

  /** The first job accepted for a shop without a log file is the only job
      on its page. */
  lemma FirstJobOnPage(registry: Registry, logs: JobLogs, form: map<string, string>,
                       file: Option<Upload>, env: SubmitEnv)
    requires Submit(registry, logs, form, file, env).response.Ok?
    requires form["shop_id"] !in logs
    ensures var out := Submit(registry, logs, form, file, env);
      var page := ShopJobs(registry, out.state, form["shop_id"]);
      && |page.jobs| == 1
      && page.jobs[0].jobId == out.response.id
      && page.jobs[0].status == Pending
      && page.jobs[0].copies == ParseOptions(form).copies
      && page.jobs[0].color == ParseOptions(form).color
      && page.jobs[0].paperSize == ParseOptions(form).paperSize
      && page.jobs[0].filePath == StoredPath(form["shop_id"], out.response.id + Extension(file.value.filename))
  {
    assert LogOf(logs, form["shop_id"]) == [];
  }

  /** An accepted submission shows up last on the shop's page, pending, under
      the job id the response returned. */
  lemma SubmitThenView(registry: Registry, logs: JobLogs, form: map<string, string>,
                       file: Option<Upload>, env: SubmitEnv)
    requires Submit(registry, logs, form, file, env).response.Ok?
    ensures var out := Submit(registry, logs, form, file, env);
      var page := ShopJobs(registry, out.state, form["shop_id"]);
      && |page.jobs| == |ShopJobs(registry, logs, form["shop_id"]).jobs| + 1
      && page.jobs[|page.jobs| - 1].jobId == out.response.id
      && page.jobs[|page.jobs| - 1].status == Pending
  {
  }
}
