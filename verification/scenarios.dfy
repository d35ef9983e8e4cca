/** Properties that span the desktop form and the shop server: what the
    form posts is what the registry accepts, and a registered shop's page
    shows the jobs submitted to it. */
module Scenarios {
  import opened Common
  import opened Text
  import opened ShopRegistry
  import opened JobQueue
  import opened QrForm

  /** A registration posted by the form always passes the server's field
      check; when the image is stored, the registry then holds the form's
      stripped shop id with the form's stripped URL and a QR reference. */
  lemma FormRegistrationIsAccepted(st: FormState, encode: QrPayload -> string, file: Registry,
                                   env: RegisterEnv)
    requires RegisterWithServer(st, encode).Post?
    requires env.imageFault.None?
    ensures var body := RegisterWithServer(st, encode).body;
      var out := Register(file, body, env);
      && out.response == Ok(out.response.message, Strip(st.shopId))
      && exists i :: IsFirstMatch(LoadShops(out.state), Strip(st.shopId), i)
           && LoadShops(out.state)[i].serverUrl == Strip(st.serverUrl)
           && (encode(st.qrImage.value) != "" ==>
                 LoadShops(out.state)[i].qrCodePath == Some(QrFileName(Strip(st.shopId), env.uuidHex)))
  {
    var body := RegisterWithServer(st, encode).body;
    var out := Register(file, body, env);
    var id := Strip(st.shopId);
    var before := LoadShops(file);
    var after := LoadShops(out.state);
    match FirstIndex(before, id)
    case Some(i) =>
      assert UpdatedInPlace(before, after, i, body, env);
      assert IsFirstMatch(after, id, i);
    case None =>
      assert AppendedNew(before, after, body, env);
      assert forall j :: 0 <= j < |before| ==> after[j] == before[j];
      assert IsFirstMatch(after, id, |before|);
  }

  /** Register a shop, submit one document to it, and look at its page: the
      page lists exactly that job, pending, with the options sent, stored
      under the shop's directory with the document's extension. */
  lemma RegisterSubmitView(registry: Registry, logs: JobLogs, uuid1: string, uuid2: string,
                           t1: string, t2: string)
    requires "shop_1" !in logs
    ensures var reg := Register(registry, map["shop_id" := "shop_1", "server_url" := "http://shop.local"],
                                RegisterEnv(uuid1, t1, None));
      var form := map["shop_id" := "shop_1", "copies" := "2", "color" := "false", "paper_size" := "A4"];
      var sub := Submit(reg.state, logs, form, Some(Upload("doc.pdf")), SubmitEnv(uuid2, t2, None));
      var page := ShopJobs(reg.state, sub.state, "shop_1");
      && sub.response == Ok("Print job submitted successfully", "job_" + uuid2)
      && |page.jobs| == 1
      && page.jobs[0].jobId == "job_" + uuid2
      && page.jobs[0].copies == Given("2")
      && !page.jobs[0].color
      && page.jobs[0].paperSize == "A4"
      && page.jobs[0].status == Pending
      && page.jobs[0].filePath == "data/print_jobs/shop_1/" + ("job_" + uuid2 + ".pdf")
  {
    var data := map["shop_id" := "shop_1", "server_url" := "http://shop.local"];
    var reg := Register(registry, data, RegisterEnv(uuid1, t1, None));
    RegisterIds(registry, data, RegisterEnv(uuid1, t1, None));
    assert Registered(LoadShops(reg.state), "shop_1");
    var form := map["shop_id" := "shop_1", "copies" := "2", "color" := "false", "paper_size" := "A4"];
    var file := Some(Upload("doc.pdf"));
    var env := SubmitEnv(uuid2, t2, None);
    assert TargetsRegisteredShop(reg.state, form);
    FirstJobOnPage(reg.state, logs, form, file, env);
    SampleFacts(uuid2);
  }

  /** The concrete values the scenario above relies on. */
  lemma SampleFacts(uuid: string)
    ensures ParseOptions(map["shop_id" := "shop_1", "copies" := "2", "color" := "false", "paper_size" := "A4"])
            == PrintOptions(Given("2"), false, "A4")
    ensures Extension("doc.pdf") == ".pdf"
    ensures StoredPath("shop_1", "job_" + uuid + ".pdf") == "data/print_jobs/shop_1/" + ("job_" + uuid + ".pdf")
  {
    assert RFind("doc", '/') == -1;
    assert "doc"[0] != '.';
    ExtensionOfStemAndSuffix("doc", ".pdf");
    assert "doc" + ".pdf" == "doc.pdf";
    var saveName := "job_" + uuid + ".pdf";
    assert saveName[0] == 'j';
    assert PlainSegment("shop_1");
    assert "data/print_jobs/" + "shop_1" + "/" == "data/print_jobs/shop_1/";
  }
}
