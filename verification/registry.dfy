/** The shop registry of the shop server: an ordered list of shop records
    kept in one JSON file, read leniently and updated by an upsert keyed by
    `shop_id` (`register_shop`, `load_shops`, `get_shops`). */
module ShopRegistry {
  import opened Common

  /** One registry entry. `shopName` is None when the record has no
      `shop_name` key; `qrCodePath` is None when it is null or absent. */
  datatype Shop = Shop(
    shopId: string,
    shopName: Option<string>,
    serverUrl: string,
    createdAt: Option<string>,
    updatedAt: Option<string>,
    qrCodePath: Option<string>)

  /** The registry file `data/shops.json`. */
  type Registry = JsonFile<seq<Shop>>

  /** What `register_shop` takes from the world: the hex form of a fresh
      uuid4, the current time in ISO form, and, when image data is sent,
      whether decoding it and writing the PNG failed (with the error text). */
  datatype RegisterEnv = RegisterEnv(uuidHex: string, now: string, imageFault: Option<string>)

  /** The fields `register_shop` insists on, in the order it checks them. */
  const RequiredFields: seq<string> := ["shop_id", "server_url"]

  /** `load_shops`: the registry as a list; a missing or unparseable file
      reads as the empty registry. */
  function LoadShops(file: Registry): (shops: seq<Shop>)
    ensures file.Parsed? ==> shops == file.value
    ensures !file.Parsed? ==> shops == []
  {
    ReadList(file)
  }

  /** `get_shops`: every record, in storage order. */
  function GetShops(file: Registry): (shops: seq<Shop>)
    ensures file.Parsed? ==> shops == file.value
    ensures !file.Parsed? ==> shops == []
  {
    LoadShops(file)
  }

  predicate Registered(shops: seq<Shop>, id: string)
  {
    exists i :: 0 <= i < |shops| && shops[i].shopId == id
  }

  /** `i` is the position of the first record carrying `id`. */
  predicate IsFirstMatch(shops: seq<Shop>, id: string, i: int)
  {
    && 0 <= i < |shops|
    && shops[i].shopId == id
    && forall j :: 0 <= j < i ==> shops[j].shopId != id
  }

  /** No two records share a shop id. */
  predicate UniqueIds(shops: seq<Shop>)
  {
    forall i, j :: 0 <= i < j < |shops| ==> shops[i].shopId != shops[j].shopId
  }

  /** The linear search of the registry that stops at the first match. */
  function FirstIndex(shops: seq<Shop>, id: string): (r: Option<nat>)
    ensures r.Some? ==> IsFirstMatch(shops, id, r.value)
    ensures r.None? <==> !Registered(shops, id)
  {
    if |shops| == 0 then None
    else if shops[0].shopId == id then Some(0)
    else
      match FirstIndex(shops[1..], id)
      case None => None
      case Some(k) => Some(k + 1)
  }

  /** `k` is the position of the first field of `fields` that `data` lacks. */
  predicate IsFirstMissing(data: map<string, string>, fields: seq<string>, k: int)
  {
    && 0 <= k < |fields|
    && fields[k] !in data
    && forall j :: 0 <= j < k ==> fields[j] in data
  }

  /** The check loop over the required fields: the position of the first
      one the body lacks, if any. */
  function FirstMissing(data: map<string, string>, fields: seq<string>): (r: Option<nat>)
    ensures r.None? <==> forall j :: 0 <= j < |fields| ==> fields[j] in data
    ensures r.Some? ==> IsFirstMissing(data, fields, r.value)
  {
    if |fields| == 0 then None
    else if fields[0] !in data then Some(0)
    else
      match FirstMissing(data, fields[1..])
      case None => None
      case Some(k) => Some(k + 1)
  }

  /** The request carries image data: the key is present and not empty. */
  predicate HasImage(data: map<string, string>)
    ensures HasImage(data) ==> "qr_code_image" in data && |data["qr_code_image"]| > 0
  {
    "qr_code_image" in data && data["qr_code_image"] != ""
  }

  /** Name under which uploaded QR image data is stored. */
  function QrFileName(shopId: string, uuidHex: string): (name: string)
    ensures |name| == |shopId| + 8 + (if |uuidHex| < 8 then |uuidHex| else 8)
    ensures name[..3] == "qr_" && name[3..3 + |shopId|] == shopId && name[3 + |shopId|] == '_'
    ensures name[4 + |shopId|..|name| - 4] <= uuidHex
    ensures name[|name| - 4..] == ".png"
  {
    "qr_" + shopId + "_" + Prefix(uuidHex, 8) + ".png"
  }

  /** The QR reference a successful registration writes: the new file name
      when image data came with the request, otherwise `prior`. */
  function NewQrPath(data: map<string, string>, env: RegisterEnv, prior: Option<string>): (path: Option<string>)
    requires "shop_id" in data
    ensures HasImage(data) ==> path == Some(QrFileName(data["shop_id"], env.uuidHex))
    ensures !HasImage(data) ==> path == prior
  {
    if HasImage(data) then Some(QrFileName(data["shop_id"], env.uuidHex)) else prior
  }

  /** `after` is `before` with the record at `i` refreshed from `data`:
      same length and order, every other record untouched, the id and
      creation time kept. */
  predicate UpdatedInPlace(before: seq<Shop>, after: seq<Shop>, i: int,
                           data: map<string, string>, env: RegisterEnv)
    requires "shop_id" in data && "server_url" in data
  {
    && |after| == |before|
    && 0 <= i < |before|
    && (forall j :: 0 <= j < |before| && j != i ==> after[j] == before[j])
    && after[i].shopId == before[i].shopId
    && after[i].shopName == Some(GetOr(data, "shop_name", ""))
    && after[i].serverUrl == data["server_url"]
    && after[i].createdAt == before[i].createdAt
    && after[i].updatedAt == Some(env.now)
    && after[i].qrCodePath == NewQrPath(data, env, before[i].qrCodePath)
  }

  /** `after` is `before` with one fresh record for `data` at the end. */
  predicate AppendedNew(before: seq<Shop>, after: seq<Shop>,
                        data: map<string, string>, env: RegisterEnv)
    requires "shop_id" in data && "server_url" in data
  {
    && |after| == |before| + 1
    && after[..|before|] == before
    && after[|before|].shopId == data["shop_id"]
    && after[|before|].shopName == Some(GetOr(data, "shop_name", ""))
    && after[|before|].serverUrl == data["server_url"]
    && after[|before|].createdAt == Some(env.now)
    && after[|before|].updatedAt == None
    && after[|before|].qrCodePath == NewQrPath(data, env, None)
  }

  /** `register_shop` on the JSON body `data`, against the registry file
      `file`; the state returned is the registry file afterwards. */
  function Register(file: Registry, data: map<string, string>, env: RegisterEnv): (out: Step<Registry>)
    ensures "shop_id" !in data ==>
      out == Step(Err(400, "Missing required field: shop_id"), file)
    ensures "shop_id" in data && "server_url" !in data ==>
      out == Step(Err(400, "Missing required field: server_url"), file)
    ensures "shop_id" in data && "server_url" in data && HasImage(data) && env.imageFault.Some? ==>
      out == Step(Err(500, env.imageFault.value), file)
    ensures out.response.Ok? <==>
      "shop_id" in data && "server_url" in data && !(HasImage(data) && env.imageFault.Some?)
    ensures out.response.Err? ==> out.state == file
    ensures out.response.Ok? ==> out.response.id == data["shop_id"] && out.state.Parsed?
    ensures out.response.Ok? ==>
      forall i :: IsFirstMatch(LoadShops(file), data["shop_id"], i) ==>
        && UpdatedInPlace(LoadShops(file), out.state.value, i, data, env)
        && out.response.message == "Shop updated successfully"
    ensures out.response.Ok? && !Registered(LoadShops(file), data["shop_id"]) ==>
      && AppendedNew(LoadShops(file), out.state.value, data, env)
      && out.response.message == "Shop registered successfully"
  {
    match FirstMissing(data, RequiredFields)
    case Some(k) =>
      assert RequiredFields[0] == "shop_id" && RequiredFields[1] == "server_url";
      assert k == 0 <==> "shop_id" !in data;
      assert "Missing required field: " + "shop_id" == "Missing required field: shop_id";
      assert "Missing required field: " + "server_url" == "Missing required field: server_url";
      Step(Err(400, "Missing required field: " + RequiredFields[k]), file)
    case None =>
      assert RequiredFields[0] in data && RequiredFields[1] in data;
      if HasImage(data) && env.imageFault.Some? then
        Step(Err(500, env.imageFault.value), file)
      else
        var id := data["shop_id"];
        var shops := LoadShops(file);
        match FirstIndex(shops, id)
        case Some(i) =>
          var prior := shops[i];
          var updated := prior.(shopName := Some(GetOr(data, "shop_name", "")),
                                serverUrl := data["server_url"],
                                updatedAt := Some(env.now),
                                qrCodePath := NewQrPath(data, env, prior.qrCodePath));
          Step(Ok("Shop updated successfully", id), Parsed(shops[i := updated]))
        case None =>
          var created := Shop(id, Some(GetOr(data, "shop_name", "")), data["server_url"],
                              Some(env.now), None, NewQrPath(data, env, None));
          Step(Ok("Shop registered successfully", id), Parsed(shops + [created]))
  }

  /** After a successful registration the shop listing holds exactly the
      ids it held before plus the registered one. */
  lemma RegisterIds(file: Registry, data: map<string, string>, env: RegisterEnv)
    ensures var out := Register(file, data, env);
      out.response.Ok? ==> forall id :: Registered(GetShops(out.state), id) <==>
        Registered(GetShops(file), id) || id == data["shop_id"]
  {
    var out := Register(file, data, env);
    if out.response.Ok? {
      var before := LoadShops(file);
      var after := LoadShops(out.state);
      var id := data["shop_id"];
      match FirstIndex(before, id)
      case Some(i) =>
        assert UpdatedInPlace(before, after, i, data, env);
        forall x ensures Registered(after, x) <==> Registered(before, x) || x == id {
          if Registered(before, x) {
            var j :| 0 <= j < |before| && before[j].shopId == x;
            assert after[j].shopId == x;
          }
          if Registered(after, x) {
            var j :| 0 <= j < |after| && after[j].shopId == x;
            assert before[j].shopId == x;
          }
          if x == id {
            assert after[i].shopId == id;
          }
        }
      case None =>
        assert AppendedNew(before, after, data, env);
        assert forall j :: 0 <= j < |before| ==> after[j] == before[j];
        forall x ensures Registered(after, x) <==> Registered(before, x) || x == id {
          if Registered(before, x) {
            var j :| 0 <= j < |before| && before[j].shopId == x;
            assert after[j].shopId == x;
          }
          if x == id {
            assert after[|before|].shopId == id;
          }
        }
    }
  }

  /** Registration keeps shop ids pairwise distinct. */
  lemma RegisterKeepsIdsUnique(file: Registry, data: map<string, string>, env: RegisterEnv)
    requires UniqueIds(LoadShops(file))
    ensures UniqueIds(LoadShops(Register(file, data, env).state))
  {
    var out := Register(file, data, env);
    if out.response.Ok? && !Registered(LoadShops(file), data["shop_id"]) {
      var before := LoadShops(file);
      var after := LoadShops(out.state);
      assert AppendedNew(before, after, data, env);
      assert forall j :: 0 <= j < |before| ==> after[j] == before[j];
    }
  }

  /** Registering the same id twice leaves exactly one record for it, which
      carries the second server URL and the first registration's creation
      time. */
  lemma RegisterTwice(file: Registry, first: map<string, string>, second: map<string, string>,
                      env1: RegisterEnv, env2: RegisterEnv)
    requires UniqueIds(LoadShops(file))
    requires "shop_id" in first && "server_url" in first && env1.imageFault.None?
    requires "shop_id" in second && "server_url" in second && env2.imageFault.None?
    requires second["shop_id"] == first["shop_id"]
    ensures var mid := Register(file, first, env1).state;
      var shops := LoadShops(Register(mid, second, env2).state);
      exists i :: IsFirstMatch(shops, first["shop_id"], i)
        && (forall j :: 0 <= j < |shops| && j != i ==> shops[j].shopId != first["shop_id"])
        && shops[i].serverUrl == second["server_url"]
        && exists m :: IsFirstMatch(LoadShops(mid), first["shop_id"], m)
             && shops[i].createdAt == LoadShops(mid)[m].createdAt
  {
    var id := first["shop_id"];
    var mid := Register(file, first, env1).state;
    RegisterKeepsIdsUnique(file, first, env1);
    RegisterIds(file, first, env1);
    assert Registered(LoadShops(mid), id);
    var m := FirstIndex(LoadShops(mid), id).value;
    var last := Register(mid, second, env2).state;
    RegisterKeepsIdsUnique(mid, second, env2);
    var shops := LoadShops(last);
    assert UpdatedInPlace(LoadShops(mid), shops, m, second, env2);
    assert IsFirstMatch(shops, id, m);
  }

  /** Registering over a missing or unreadable registry file leaves a
      registry holding only the new shop: whatever the file held is lost. */
  lemma RegisterOverUnreadableRegistry(file: Registry, data: map<string, string>, env: RegisterEnv)
    requires !file.Parsed?
    requires Register(file, data, env).response.Ok?
    ensures var shops := GetShops(Register(file, data, env).state);
      |shops| == 1 && shops[0].shopId == data["shop_id"] && shops[0].updatedAt == None
  {
    assert LoadShops(file) == [];
    assert !Registered(LoadShops(file), data["shop_id"]);
  }
}
