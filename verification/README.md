# Xerox shop server and QR registration form, modelled in Dafny

This project models the shop-side half of a "scan a QR code, upload a document, print it at the shop" system:

- **Shop registry** (`ShopRegistry`, `registry.dfy`). The shop server keeps an ordered list of shop records in `data/shops.json`. `register_shop` upserts a record by `shop_id`. `load_shops`/`get_shops` read the list leniently.
- **Print-job queue** (`JobQueue`, `jobs.dfy`). `submit_print_job` accepts an uploaded document for a registered shop. It appends a `pending` job record to that shop's job log `data/print_jobs/<shop_id>_jobs.json`. `shop_jobs` shows a shop's log.
- **QR generator form** (`QrForm`, `qr_form.dfy`). This is the operator's desktop form without its widgets: the shop id, name and URL entries, the "QR generated" and "server running" flags, and the buttons Generate Unique ID, Check Connection, Generate QR Code, Save QR Code, Register with Server and Clear.
- **Cross-component scenarios** (`Scenarios`, `scenarios.dfy`). A registration posted by the form passes the server's checks. A shop that is registered and then sent a document shows that job on its page.
- **Helpers** (`Common`, `Text`). These hold the shared vocabulary (`Option`, JSON files, responses) and Python's string operations as the code uses them: `str.strip` over Python's full whitespace set, `str.lower`, `posixpath.splitext`, `posixpath.join` and `str(int)`.

Everything is a pure function. A server operation takes the stored files as values and returns a `Step`, which pairs the response with the stored state afterwards. A form button takes the form state and returns an outcome with the next form state. Whatever the code takes from the world is a parameter:

- uuid4 hex strings and the current time;
- whether base64 decoding or saving an upload failed;
- the HTTP status or connection failure of a probe or a POST;
- the base64 text of the PNG, as a function `encode` from the image's payload to text.

A file is `Missing`, `Malformed` or `Parsed(value)`. The job logs are a map from shop id to log file, and a shop with no key has no log file.

Some behaviours of the code worth stating:

- Registration only checks that the `shop_id` and `server_url` keys are present. An empty string passes.
- `copies` is stored exactly as the form sent it. Without the field it is the integer 1 (`DefaultOne`). It is never parsed into a positive integer.
- A registry file that is missing or does not parse reads as empty. A registration then overwrites it with a one-record registry (`RegisterOverUnreadableRegistry`).
- The shop server has no file-extension allow-list. The only allow-list is in the relay, which this model does not cover.

## Model

| member | source | states |
|---|---|---|
| ShopRegistry.LoadShops | desktop/flask-api-server.py:27-32 | the registry file's list when it parses; the empty registry when the file is missing or unparseable |
| ShopRegistry.FirstIndex | desktop/flask-api-server.py:70-71 | the search stops at the first record with the id; no result exactly when no record has it |
| ShopRegistry.FirstMissing | desktop/flask-api-server.py:51-54 | reports the first required field, in list order, that is not a key of the body; nothing exactly when all are present (values are not inspected) |
| ShopRegistry.Register | desktop/flask-api-server.py:44-100 | missing `shop_id` → 400 naming it, else missing `server_url` → 400 naming it, else image data with a decoding/writing fault → 500; the registry file is unchanged on every error. On success the response echoes `shop_id`. An existing id updates its first record in place: same length and order, other records equal, `created_at` kept, `shop_name` (default `''`), `server_url` and `updated_at` set, QR path replaced only if image data was sent. An unknown id appends one record with `created_at`, no `updated_at`, and the new QR name or none |
| ShopRegistry.GetShops | desktop/flask-api-server.py:102-106 | the listing is every stored record in storage order, and empty when the registry file is missing or unparseable |
| ShopRegistry.HasImage | desktop/flask-api-server.py:58 | image data counts only when the `qr_code_image` key is present and its text is non-empty (Python truthiness) |
| ShopRegistry.QrFileName | desktop/flask-api-server.py:60 | the stored QR image is named `qr_<shop id>_<first eight uuid hex characters>.png` |
| ShopRegistry.NewQrPath | desktop/flask-api-server.py:57-60 | a registration with non-empty image data records the new QR file name; without it the record keeps its previous QR reference (none for a new record) |
| ShopRegistry.RegisterIds | desktop/flask-api-server.py:85-106 | after a successful registration, the ids that `get_shops` lists are the previous ones plus the registered id |
| ShopRegistry.RegisterKeepsIdsUnique | desktop/flask-api-server.py:69-97 | if shop ids were pairwise distinct before a registration, they still are afterwards |
| ShopRegistry.RegisterTwice | desktop/flask-api-server.py:69-97 | registering one id twice leaves exactly one record with it, holding the second `server_url` and the `created_at` the record had after the first registration |
| ShopRegistry.RegisterOverUnreadableRegistry | desktop/flask-api-server.py:27-32 | a successful registration over a missing or unparseable registry file leaves only the new record |
| JobQueue.LogOf | desktop/flask-api-server.py:162-171 | a shop's job log is the parsed list in its log file; a missing or unparseable log file reads as the empty log |
| JobQueue.ParseOptions | desktop/flask-api-server.py:113-116 | `copies` is the raw form text, or the integer 1 if absent; `color` is true iff the field is present and spells "true" in any letter case; `paper_size` defaults to `A4` |
| JobQueue.StoredPath | desktop/flask-api-server.py:139-146 | for a slash-free shop id, the upload is stored as `data/print_jobs/<shop_id>/<job_id><extension>` |
| JobQueue.Submit | desktop/flask-api-server.py:108-185 | rejections in order: no file part (400), empty filename (400), absent or unregistered `shop_id` (400 `Invalid shop ID`), then a fault while saving the upload (500 carrying the fault's text). No log changes on any rejection. On acceptance the response returns `job_<uuid hex>`. That shop's log is extended by exactly one record at its end, with that id, `pending`, the given filename, normalised options, stored path and time. Every other log file is unchanged |
| JobQueue.SubmitTouchesOnlyItsShop | desktop/flask-api-server.py:162-177 | only the target shop's log can change; if its log file was missing or unparseable, the result is a one-job log |
| JobQueue.SubmitKeepsJobIdsDistinct | desktop/flask-api-server.py:143-173 | if the uuid drawn is not yet in use, job ids stay pairwise distinct in every shop's log |
| JobQueue.SubmitAll | desktop/flask-api-server.py:162-177 | handling submissions one after another answers each of them, never removes a log file, and leaves every shop's old log as a prefix of its new one |
| JobQueue.LogGrowsByAccepted | desktop/flask-api-server.py:164-177 | over any sequence of submissions, each shop's log is only extended (the old log is a prefix) and grows by exactly the number of submissions accepted for that shop |
| JobQueue.ShopJobs | desktop/flask-api-server.py:193-213 | the page shows the shop's whole log (empty when the file is missing or unparseable); the name is `""` for an unregistered shop, otherwise the first matching record's `shop_name`, or the shop id when the record has none |
| JobQueue.FirstJobOnPage | desktop/flask-api-server.py:164-173 | the first accepted job for a shop that has no log file is the only job on its page, carrying the returned id, `pending` and the normalised options |
| JobQueue.SubmitThenView | desktop/flask-api-server.py:173-182 | after an accepted submission the shop's page has one more job, the last one having the returned job id and status `pending` |
| QrForm.Initial | desktop/xerox-qr-generator.py:25-34 | the form starts with empty id and name, the `https://` placeholder URL, no code generated, no image and the server flag false |
| QrForm.GenerateUniqueId | desktop/xerox-qr-generator.py:138-142 | only the shop id changes; it becomes `shop_` followed by at most eight characters taken from the start of the uuid hex (13 characters for a full uuid), and it is never blank |
| QrForm.CheckServerConnection | desktop/xerox-qr-generator.py:144-165 | an empty or placeholder (`https://`) URL, compared unstripped, changes nothing. Otherwise only the server flag changes: it becomes true exactly on status 200, and false on any other status or a connection failure |
| QrForm.GenerateQr | desktop/xerox-qr-generator.py:167-220 | a blank stripped shop id fails first, then an empty or placeholder stripped URL; both leave the form unchanged. Otherwise the payload holds the stripped id and URL and the time, plus the stripped name only when it is not empty. The form records the code as generated; the entries keep their unstripped text |
| QrForm.Entries | desktop/xerox-qr-generator.py:182-191 | the QR object has `shop_id` then `server_url` first and `generated_at` last, with `shop_name` between them exactly when the payload has a name (four members or three) |
| QrForm.EntriesRoundTrip | desktop/xerox-qr-generator.py:182-194 | the JSON object put in the QR code is `shop_id`, `server_url`, optional `shop_name`, `generated_at`; reading it back gives the payload exactly |
| QrForm.SaveQr | desktop/xerox-qr-generator.py:222-229 | refused unless a code was generated and an image exists; the file name is `xerox_shop_<stripped id>_qr.png` |
| QrForm.RegisterWithServer | desktop/xerox-qr-generator.py:240-269 | refused with "Generate a QR code first" when no code was generated, else with "Cannot connect to server" when the server flag is false. With the generated flag set but no image, it fails as saving a missing image does. Otherwise it posts to `<stripped URL>/api/register_shop` a body of exactly `shop_id`, `shop_name` and `server_url` (stripped) plus `qr_code_image`, which is the encoding of the form's current image |
| QrForm.ConsistentRegisterHasImage | desktop/xerox-qr-generator.py:241-256 | on a form where the generated flag always comes with an image, registration never reaches the missing-image failure |
| QrForm.RegisterReport | desktop/xerox-qr-generator.py:269-286 | success, with the text "Shop registered successfully with the server", exactly on status 200; any other status gives "Server returned error: <status>", followed by " - <error field or empty>" when the body parsed as a JSON object; a failed request gives "Failed to register with server: <reason>" |
| QrForm.RegisterReportNamesStatus | desktop/xerox-qr-generator.py:274-277 | every refusal message starts with `Server returned error: ` followed by the status in decimal, and the status reads back from it whether or not an error text follows |
| QrForm.RegisterReportDistinguishesStatus | desktop/xerox-qr-generator.py:274-277 | two refusal messages that are equal come from the same status code |
| QrForm.ClearForm | desktop/xerox-qr-generator.py:288-295 | the entries become `""`, `""`, `https://` and the generated flag false; the server flag and the last image are kept |
| QrForm.ClearFormLocksActions | desktop/xerox-qr-generator.py:222-292 | after Clear, saving and registering are refused, generating fails with "Shop ID is required", and the connection check probes nothing |
| QrForm.InitialCheckSkipsProbe | desktop/xerox-qr-generator.py:25-37 | the connection check made by the constructor never probes, because the URL entry holds only the placeholder |
| QrForm.ActionsKeepConsistent | desktop/xerox-qr-generator.py:209-219 | no button ever leaves the generated flag set without an image |
| QrForm.GenerateThenRegisterAgree | desktop/xerox-qr-generator.py:182-265 | registering right after generating (with the server up) posts the id and URL that the code encodes, its name or `""`, and the encoding of that same code as the image |
| QrForm.RegisterSendsCurrentFields | desktop/xerox-qr-generator.py:249-265 | registration sends the entries as they are now, while the image it sends is the code generated before the edit |
| Scenarios.FormRegistrationIsAccepted | desktop/flask-api-server.py:51-97 | a body posted by the form always passes the server's field check. With the image stored, the registry then has the form's stripped id, with its stripped URL and, when image text was sent, the new QR file name |
| Scenarios.RegisterSubmitView | desktop/flask-api-server.py:108-213 | registering `shop_1` and then submitting `doc.pdf` with 2 copies, `color=false` and `A4` gives a page with exactly that one job: pending, copies `"2"`, not colour, stored at `data/print_jobs/shop_1/job_<hex>.pdf` |
| Text.Strip | desktop/xerox-qr-generator.py:169-171 | the result is empty exactly when the text is all Python whitespace; otherwise it neither starts nor ends with whitespace |
| Text.StripIsSlice | desktop/xerox-qr-generator.py:169-171 | the result is the slice of the text between a whitespace-only head and a whitespace-only tail |
| Text.StripPadded | desktop/xerox-qr-generator.py:169-171 | stripping any whitespace padding around a text with non-blank ends returns that text |
| Text.StripIdempotent | desktop/xerox-qr-generator.py:169-171 | stripping twice gives the same result as stripping once |
| Text.Extension | desktop/flask-api-server.py:144 | the extension `splitext` returns is empty or starts with a dot |
| Text.Lower | desktop/flask-api-server.py:115 | lowering keeps the length and maps each character by itself: ASCII capitals to small letters, everything else unchanged |
| Text.Join | desktop/flask-api-server.py:139-146 | an absolute second part replaces the first; the result is never shorter than the second part nor longer than both parts and a slash |
| Text.JoinRelative | desktop/flask-api-server.py:139-146 | joining a relative part keeps the first part in front, ends with the second, and inserts one slash exactly when the first part is non-empty and does not already end in one |
| Text.ExtensionShape | desktop/flask-api-server.py:144 | the extension is a suffix of the filename; it is empty or a dot followed by no dot or slash; a name without a dot has none |
| Text.ExtensionOfStemAndSuffix | desktop/flask-api-server.py:144-145 | a stem whose last path component has a non-dot character, followed by a dot-led suffix, gives that suffix back as the extension |
| Text.ExtensionOfDotStem | desktop/flask-api-server.py:144-145 | when the last path component before the final dot is empty or only dots (a hidden name such as `.pdf` or `scans/.pdf`), there is no extension, so the upload is stored as the bare job id |
| Text.Decimal | desktop/xerox-qr-generator.py:275 | the decimal text of a status code is non-empty, all digits, and has no leading zero |
| Text.DecimalRoundTrip | desktop/xerox-qr-generator.py:275 | the decimal text of a status code reads back as the same number |

## Left out

- Flask plumbing (routing, `request.json`/`request.form` parsing, `jsonify`, CORS) and every page: the `index`, `admin_dashboard`, `serve_qr_code` and `get_template` routes, and the `__main__` block that writes the HTML templates. Responses are the `Response` datatype.
- The relay endpoint and its file-type allow-list, in `user side/main.py`, are not part of this model.
- File contents and their I/O. The model does not hold the QR PNG bytes, the uploaded document bytes or the created directories. It models the file names and paths, and the JSON lists as values.
- A failure while rewriting `data/shops.json` or a job-log file is not modelled. Such a failure is a 500 that can follow a truncated write. The faults that are modelled are the image decoding/writing failure in `register_shop` and a failure to save the upload before the log is touched.
- A registration body that is not a JSON object is not modelled. For a list or a string the field check becomes a membership or substring test, so a body of `[]` gets the 400 for the missing `shop_id`; `null` and other values end in the catch-all 500. JSON values that are not strings are not modelled either: they are stored as they came. Bodies and forms are string-to-string maps.
- Stored files that parse but have another shape are not modelled; the model's files hold lists of shop or job records. In the source:
  - a registry holding a JSON object is listed as it is by `get_shops`;
  - over an empty object `{}`, `submit_print_job` answers 400 `Invalid shop ID` and `shop_jobs` shows the page with name `""`; over a non-empty object their lookup loops index a key string and fail (a 500, uncaught in `shop_jobs`);
  - `register_shop` over such a registry fails with a 500, in its lookup loop or, for `{}`, when it appends;
  - a job log holding an object is shown by `shop_jobs` as it is, and `submit_print_job` fails with a 500 when it appends to it;
  - a record without `shop_id` makes an endpoint fail (a 500) only when one of the lookup loops reaches it before the first match (flask-api-server.py lines 70-83, 130-133 and 208-211).
- The uuid4 and `datetime.now()` values are parameters. The freshness of a job id is a precondition of `SubmitKeepsJobIdsDistinct`, not something proved.
- Concurrency. The log and registry read-modify-write races cannot happen in this sequential model.
- Job status transitions. "Mark Completed" is a client-side alert only, so no code path in the source changes a job's status.
- QR encoding can fail: `qr.make(fit=True)` raises when the payload is too large for the biggest QR version. The exception is not caught, and the generated flag and the image stay as they were. `QrForm.GenerateQr` always succeeds once validation passes.
- The tkinter widgets, message boxes, status bar and indicator label texts, QR image rendering, the real `requests` calls and the write in `save_qr` (including its error path). Network outcomes are inputs. The image is represented by the payload it encodes.
- Path handling is POSIX (`posixpath.join`, `posixpath.splitext`). Windows path rules are not modelled.
- Text.Lower lowers ASCII letters only, where Python's `str.lower` covers all of Unicode. It is used only to compare with `"true"`.
- JobQueue.StoredPath: its contract spells out the path only for a shop id without slashes. Shop ids with slashes, or that are absolute, are covered by its `Join` body but by no stated property.
- ShopRegistry.RegisterTwice assumes the registry's ids were distinct to begin with. A hand-edited registry with duplicate ids keeps them, and only the first duplicate is updated; `Register`'s own contract covers that case.
- JobQueue.Submit: the job logs are keyed by the shop-id string. The server finds a log by its path, `data/print_jobs/<shop_id>_jobs.json`. Distinct registered ids whose log paths name the same file share one log and one storage directory in the source. Examples are `shop_1` and `./shop_1`, `a/b` and `a//b`, or ids differing only in case on a case-insensitive filesystem. Such ids are not modelled. For them the promises that other logs stay unchanged (`Submit`, `SubmitTouchesOnlyItsShop`, `LogGrowsByAccepted`, `SubmitKeepsJobIdsDistinct`) hold in the model only.
- JobQueue.ShopJobs and JobQueue.Submit: a log path that exists but cannot be opened is not modelled. Both endpoints open the log outside their lenient `try`, so `submit_print_job` answers 500 after the upload is saved and `shop_jobs` raises. Shop ids alone can produce this. The storage directory of a shop called `x_jobs.json` is `data/print_jobs/x_jobs.json`, which is the log path of shop `x`. After one submission to `x_jobs.json`, every submission to `x` fails and the page of `x` crashes. If `x` already has a log, creating the directory for `x_jobs.json` fails instead. The model keeps the two shops independent, and its `ShopJobs` always returns a page.
