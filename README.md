# food_tracker: the decision rules of the upload site and the analysis server

food_tracker is a small calorie-tracking system in two parts.

- **The web site** (`pyapp-web/app.py`) lets users register, log in, upload
  photos of their meals, browse and delete their upload history, and reset a
  forgotten password.
- **The chain server** (`chain-server/server.py`,
  `chain-server/food_analyzer.py`) receives an image, as a path on its disk
  or as inline base64 data. It sends the image to a vision model and answers
  with the dishes it finds. A second endpoint looks up the nutrients of a
  dish.
- **A helper script** (`pyapp-web/test_email.py`) checks the mail settings
  before it sends one test message.

This Dafny project models the parts of these programs that decide things.
Each rule is proved against a statement of what it promises.

| file | module | what it holds |
|---|---|---|
| `common.dfy` | `Common` | `Option`, `Result`, a JSON-like `Value` with Python truthiness, and `dict.get` |
| `text.dfy` | `Text` | the `str` operations the handlers use: `rfind`, `find`, `rsplit('.', 1)[1]`, `split(',')[1]`, `lower()` |
| `app_rules.dfy` | `AppRules` | the pure rules of the web site: `allowed_file`, the CRC tag, the stored file name, the ordered `/upload` checks, the reset-form check, the column migration |
| `web_app.dfy` | `WebApp` | the `App` class: the user and upload tables, the upload folder and the session, changed in place by the handlers |
| `food_analyzer.dfy` | `FoodAnalyzer` | `Path.name`/`Path.suffix`, the image checks, the message shape, the `Analyzer` class with `analyze_image` and `analyze_batch` |
| `chain_server.dfy` | `ChainServer` | source selection, data-URL stripping, the temporary file and its removal, the `Server` class with start-up, shut-down, `/analyze` and the two LangServe wrappers |
| `mail_preflight.dfy` | `MailPreflight` | the required-fields loop, the placeholder check and the choice of SSL or STARTTLS |

Calls into libraries are parameters of the members that make them, as
functions whose behaviour is not known:

- `zlib.crc32`, `secure_filename`
- password hashing and checking
- base64 encoding and decoding
- the LangChain model call with its JSON parser
- the nutrition searcher, as a function to its result or the message of the exception it raises
- the SMTP session

The `uuid4` token is a plain string parameter. An itsdangerous token arrives
already checked, as the e-mail it carries or `None`. The file systems are
maps from paths to bytes, or, for the upload folder, a set of names.

## Model

| member | source | states |
|---|---|---|
| Text.LastIndexOf | pyapp-web/app.py:136 | `rfind`: none exactly when the character is absent; otherwise an index holding it with no later occurrence |
| Text.AfterLast | pyapp-web/app.py:136 | `rsplit(c, 1)[1]`: none (Python's IndexError) exactly when `c` is absent; otherwise a `c`-free tail that, after `c`, ends the string |
| Text.AfterLastOfJoin | pyapp-web/app.py:274 | the text after the last `c` of `prefix + c + suffix` is `suffix` whenever `suffix` holds no `c` |
| Text.LastIndexOfJoin | chain-server/food_analyzer.py:88 | the last `c` of `prefix + c + suffix` sits at `|prefix|` whenever `suffix` holds no `c` |
| Text.IndexOf | chain-server/server.py:274 | `find`: none exactly when absent; otherwise an index holding the character with no earlier occurrence |
| Text.SecondField | chain-server/server.py:274 | `split(c)[1]`: a `c`-free prefix of the text after the first `c`, ending at the next `c` or at the end |
| Text.SecondFieldOfJoin | chain-server/server.py:274 | for `c`-free `head` and `body`, `split(c)[1]` of `head + c + body` is `body` |
| Text.LowerKeepsDotFree | pyapp-web/app.py:274 | lower-casing never creates a '.', so a lowered extension is still dot-free |
| AppRules.AllowedFileSpec | pyapp-web/app.py:134-136 | `allowed_file(f)` holds iff `f` has a last '.' and the lowered text after it is png, jpg, jpeg, gif or webp |
| AppRules.OnlyFinalExtensionCounts | pyapp-web/app.py:136 | for a dot-free `ext`, `stem.ext` is allowed iff the lowered `ext` is allowed, whatever dots `stem` holds |
| AppRules.DoubleExtensionAccepted | pyapp-web/app.py:136 | "a.exe.png" is accepted |
| AppRules.HiddenAllowedExtensionRejected | pyapp-web/app.py:136 | "a.png.exe" is rejected |
| AppRules.UpperCaseExtensionAccepted | pyapp-web/app.py:136 | "X.JPG" is accepted |
| AppRules.ToHex | pyapp-web/app.py:268 | the `0Nx` format for a number with at most `width` hex digits, the only range on which it writes exactly `width` digits: exactly `width` lower-case hex digits |
| AppRules.ParseToHex | pyapp-web/app.py:268 | a number below 16^width reads back from its `width`-digit hex form |
| AppRules.CrcTag | pyapp-web/app.py:268 | the tag is exactly 8 lower-case hex digits and reads back to the checksum masked to 32 bits, negative checksums included |
| AppRules.CrcTagIdentifiesChecksum | pyapp-web/app.py:268 | two tags are equal iff the checksums agree on their low 32 bits |
| AppRules.StoredNameShape | pyapp-web/app.py:272-275 | a stored name exists iff the sanitised name has a '.'; it starts with the token, its final extension is the lowered extension, and it passes `allowed_file` iff the sanitised name does |
| AppRules.UploadCheck | pyapp-web/app.py:251-262 | the checks in order, first failure wins, each verdict given by an if-and-only-if: unconfirmed iff not confirmed; no "file" part iff confirmed without one; empty name iff confirmed with an empty name; bad format iff confirmed with a non-empty name `allowed_file` refuses; accepted iff all pass, with the "file" part |
| AppRules.Rejection | pyapp-web/app.py:251-262 | a rejected upload answers 403 iff the user is unconfirmed, 400 otherwise, with the handler's messages |
| AppRules.ResetCheck | pyapp-web/app.py:484-493 | "fill both" iff a field is empty; "mismatch" iff both are filled and differ; accepted iff both are filled and equal |
| AppRules.MigrationPlan | pyapp-web/app.py:222-228 | the `text` ALTER is planned iff the column is missing, the same for `crc`; nothing else; one statement per missing column; `text` before `crc` |
| AppRules.Migrate | pyapp-web/app.py:222-233 | the appends and the execution loop: a transaction is opened iff a column is missing, and exactly the planned statements are executed, in order |
| WebApp.NextId | pyapp-web/app.py:62-63 | the id SQLite gives a new row is positive and above every id in use |
| WebApp.FindUpload | pyapp-web/app.py:419 | `Upload.query.get`: none iff no row has the id; otherwise a row of the table with that id |
| WebApp.RemoveUpload | pyapp-web/app.py:442-443 | `db.session.delete`: the rows left are exactly the rows without that id, and none are added |
| WebApp.RemoveAbsentUpload | pyapp-web/app.py:442-443 | deleting an id no row carries leaves the table unchanged |
| WebApp.RemoveUploadIncreasing | pyapp-web/app.py:442-443 | deleting keeps ids increasing along the table |
| WebApp.RemoveUploadCount | pyapp-web/app.py:432-443 | with increasing ids, deleting a known id removes exactly one row |
| WebApp.IdsDetermineRow | pyapp-web/app.py:63 | with increasing ids an id names one row only |
| WebApp.LatestUpload | pyapp-web/app.py:371-375 | the user's newest upload: none iff the user has no rows; otherwise the user's last row in creation order |
| WebApp.LatestUploadHasLargestId | pyapp-web/app.py:371-375 | with increasing ids that row also carries the user's largest id |
| WebApp.UserById | pyapp-web/app.py:72-74 | `User.query.get`: none iff no user has the id; otherwise a user with that id |
| WebApp.UserByOwnId | pyapp-web/app.py:50-51 | with unique ids and e-mails, looking up a user's own id finds that very user |
| WebApp.AppendIncreasing | pyapp-web/app.py:62-63 | appending a row whose id exceeds every id in the table keeps ids increasing |
| WebApp.UserIndexByEmail | pyapp-web/app.py:357 | `filter_by(email=...).first()`: none iff no user has the address; otherwise the first user with it |
| WebApp.App.AuthUser | pyapp-web/app.py:72-74 | `current_user`: none when nobody is logged in or the session's id names no user; otherwise a user of the table with the session's id |
| WebApp.App.constructor | pyapp-web/app.py:184-216 | from tables whose user ids and e-mails are unique (the `unique` columns) and whose upload ids increase: the tables and folder as given, nobody logged in, no `last_image` |
| WebApp.App.Index | pyapp-web/app.py:239-245 | anonymous requests go to login, and only they; a logged-in request gets the index page, whose preview is the `image` argument when non-empty, else `last_image`, else "" |
| WebApp.App.Upload | pyapp-web/app.py:247-292 | anonymous is redirected and a failed check answers its error, both changing nothing; an accepted file is saved under the stored name, recorded once with the next id, its CRC tag and the user, and becomes `last_image`; a sanitised name without '.' is a 500 and saves nothing; the users and the session's user never change, and unique users and increasing ids are kept |
| WebApp.App.Login | pyapp-web/app.py:344-391 | an unknown address or a wrong password shows "bad credentials" and an unconfirmed user "confirm first", changing nothing; otherwise exactly the user with that address is logged in (the current user is that row) and `last_image` is the URL of their newest upload, or removed |
| WebApp.App.Logout | pyapp-web/app.py:393-400 | forgets the user and `last_image` and redirects to login |
| WebApp.App.UseUpload | pyapp-web/app.py:415-426 | unknown id 404 and another user's upload 403, both changing nothing; the owner's upload becomes `last_image` and the redirect's `image` |
| WebApp.App.DeleteUpload | pyapp-web/app.py:428-450 | unknown id 404 and another user's upload 403, both changing nothing; the owner's delete removes the file and exactly that row, and clears `last_image` only if it showed that file |
| WebApp.App.ResetPassword | pyapp-web/app.py:469-494 | bad token 400, unknown user 404; on POST only an accepted form changes the password, of that user only, and says so; otherwise nothing changes |
| FoodAnalyzer.BaseName | chain-server/food_analyzer.py:88 | `Path.name` holds no '/'; it is the whole path when there is none, and otherwise exactly what follows the last '/' |
| FoodAnalyzer.NameSuffix | chain-server/food_analyzer.py:88 | `Path.suffix` of a name is "" or a '.' followed by at least one dot-free character, and then ends the name after a non-empty rest; it is "" iff the name has no '.', ends in '.', or its only '.' is its first character |
| FoodAnalyzer.Suffix | chain-server/food_analyzer.py:88-89 | `Path(p).suffix` of a path: the suffix of the whole path when it has no '/', otherwise the suffix of what follows the last '/' |
| FoodAnalyzer.SuffixOfName | chain-server/food_analyzer.py:88 | the suffix of `stem.ext` is `.ext` |
| FoodAnalyzer.SuffixOfPath | chain-server/food_analyzer.py:88 | the suffix of `dir/stem.ext` is `.ext`, whatever the directories hold |
| FoodAnalyzer.DotFileHasNoSuffix | chain-server/food_analyzer.py:88 | a name like ".jpg" has no suffix |
| FoodAnalyzer.PrepareImagePart | chain-server/food_analyzer.py:81-99 | a missing file fails first; then it fails iff the lowered suffix is not allowed, with that suffix in the message; otherwise an image part of detail "high" whose URL is the JPEG data-URL prefix plus the encoded bytes |
| FoodAnalyzer.ErrorRecord | chain-server/food_analyzer.py:141-146 | exactly the keys `error`, `dishes`, `total_weight` and `confidence`; the error is the message, and the other three are empty or zero |
| FoodAnalyzer.Analyzer.constructor | chain-server/food_analyzer.py:38-74 | the model name, prompt and format instructions are set once |
| FoodAnalyzer.Analyzer.CreateMessage | chain-server/food_analyzer.py:104-118 | fails iff the image checks fail, with their message; otherwise one message: the prompt and format text, then the image part |
| FoodAnalyzer.Analyzer.AnalyzeImage | chain-server/food_analyzer.py:127-146 | never fails: a missing file, an unsupported suffix or a failing model call becomes the error record with the message; otherwise the model's answer unchanged |
| FoodAnalyzer.Analyzer.AnalyzeBatch | chain-server/food_analyzer.py:148-162 | one result per path, in path order, each the result of analysing that path |
| ChainServer.SelectSource | chain-server/server.py:303-316 | a non-empty `image_path` wins; otherwise inline iff `image_base64` and `filename` are both non-empty; otherwise 400 "need filename" if `image_base64` was sent, else "give a source" |
| ChainServer.StripDataUrlPrefix | chain-server/server.py:272-274 | the result has no ','; a payload without ',' is kept; otherwise the text between the first ',' and the next |
| ChainServer.StripDataUrlHeader | chain-server/server.py:272-274 | a data URL `header,body` is reduced to `body` |
| ChainServer.StripIdempotent | chain-server/server.py:272-274 | stripping twice is stripping once |
| ChainServer.TempPath | chain-server/server.py:278-283 | `temp_dir / filename`: an absolute name replaces the directory; any other name is placed under `temp_images/` unchanged |
| ChainServer.TempPathKeepsName | chain-server/server.py:278-283 | a plain file name is the last component of its temporary path, so the analyzer judges the suffix the client sent |
| ChainServer.RemovedAfterAnalysisAsWritten | chain-server/server.py:331-333 | the cleanup as written: a removal iff `image_base64` is non-empty, and it removes the analysed path, whichever source won |
| ChainServer.RemovedAfterAnalysis | chain-server/server.py:330-336 | the corrected cleanup: a file is removed iff the image was inline, and it is the temporary file that was analysed |
| ChainServer.AsWrittenDeletesCallerFile | chain-server/server.py:331-333 | the cleanup as written removes the caller's own `image_path` when `image_base64` is also sent |
| ChainServer.CleanupRulesAgreeOtherwise | chain-server/server.py:305-336 | apart from that case, the cleanup as written and the corrected one remove the same file |
| ChainServer.WriteThenRemove | chain-server/server.py:278-283 | writing the temporary file and removing it leaves the rest of the disk as it was |
| ChainServer.Server.constructor | chain-server/server.py:150-151 | no analyzer and no searcher before start-up |
| ChainServer.Server.Startup | chain-server/server.py:157-174 | start-up fails without an OpenAI key and changes nothing; otherwise a new analyzer with the given settings and a searcher |
| ChainServer.Server.Shutdown | chain-server/server.py:184-187 | both services are dropped and the disk is untouched |
| ChainServer.Server.Analyze | chain-server/server.py:286-344 | no analyzer 500; no usable source 400 with nothing analysed or written; a local path is analysed in place; an inline image is stripped and decoded (a failure is 500), written to its temporary path and analysed; a result whose `dishes` or `confidence` cannot be logged is a 500 that leaves the temporary file on disk; otherwise only that temporary file is removed, following the corrected cleanup rule of "## Findings" rather than the code as written |
| ChainServer.ErrorRecordLogs | chain-server/server.py:323-328 | the analyzer's own error record always passes the logging step, so analyzer failures are answered, never turned into a 500 |
| ChainServer.AnalysisLogs | chain-server/server.py:323-328 | an error record always logs, so does a result with neither `dishes` nor `confidence` (the defaults); without an error, a text `confidence` or a null `dishes` makes the log line raise |
| ChainServer.NutrientsLogs | chain-server/server.py:368-373 | an error record always logs, so does a result with neither `calories` nor `protein`; without an error, a null `calories` or a text `protein` makes the `.1f` format raise |
| ChainServer.Server.AnalyzeNutrients | chain-server/server.py:347-378 | no searcher 500; a searcher that raises is a 500 with its message; a result whose `calories` or `protein` cannot be formatted is a 500; otherwise the searcher's result unchanged, and an answer comes iff all of these pass |
| ChainServer.Server.AnalyzeWrapper | chain-server/server.py:400-409 | an error record without an analyzer, or when `image_path` is missing or false; for a non-empty string path, the analyzer's result unchanged |
| ChainServer.Server.AnalysisWrapper | chain-server/server.py:417-432 | an error record without a searcher, or when `dish` is missing or false; otherwise the searcher's outcome unchanged, its failure included, called with `amount` 100 and `unit` "грамм" when those keys are absent |
| MailPreflight.MailSection | pyapp-web/test_email.py:27 | `config.get('mail', {})` followed by the `.get` calls: an absent section is the empty mapping; a section that is not a mapping is the crash; otherwise the section's own entries |
| MailPreflight.MissingFields | pyapp-web/test_email.py:30-35 | exactly the required fields that are absent or false, in the order server, port, username, password, default_sender |
| MailPreflight.ChooseMode | pyapp-web/test_email.py:78-89 | SSL iff `use_ssl` is true (default false); otherwise plain, with STARTTLS unless `use_tls` is present and false |
| MailPreflight.CheckConfig | pyapp-web/test_email.py:27-44 | a `mail` value without `.get` crashes; missing fields are reported iff any field is missing; the placeholder username stops the test iff all fields are present; only then is a mode chosen |
| MailPreflight.TestEmailConfig | pyapp-web/test_email.py:13-116 | a missing or invalid file answers False and a non-mapping document crashes, neither connecting; a connection is attempted only after every check passes, in the chosen mode, and the answer is that attempt's result |

## Left out

- Lower-casing is ASCII-only. For the extension test this is exact: no other character lower-cases to a single ASCII letter of png, jpg, jpeg, gif or webp. Python's full Unicode `lower()` of a login e-mail is not modelled.
- `Path` normalisation is not modelled: repeated or trailing slashes, and "." or ".." components. Paths are plain strings.
- `os.path.exists` is modelled as "the path is a key of the disk map". Directories are not modelled.
- `created_at` is not stored. The newest upload is the user's last row in insertion order. Ties in the timestamp, which the query leaves unordered, are not modelled.
- `WebApp.App` holds one client session: one `current_user` and one `last_image`. Concurrent sessions are not modelled.
- `WebApp.NextId`: ids are unbounded integers. SQLite's 64-bit rowid limit is not modelled.
- `WebApp.App.DeleteUpload`: a removal error other than a missing file is not modelled. In the code it would propagate as a 500.
- Flask's `url_for` percent-encoding is not modelled. `WebApp.App.Upload` builds `/uploads/<name>` directly; stored names are a hex token and an extension, so nothing would be encoded.
- `/register` and `/confirm/<token>` are not modelled. In the code `/register` inserts a `User` row after checking for empty fields and a taken address (pyapp-web/app.py:311-326), and `/confirm` sets `is_confirmed` and commits (pyapp-web/app.py:338-341). In the model the `users` table therefore never gains a row and no user's `isConfirmed` ever changes; the tables a `WebApp.App` starts from stand for what those routes left behind.
- `/forgot`, `/history`, `/uploads/<name>`, the 413 handler and the e-mail link logging are not modelled. They only render templates, log, or call the mail and token libraries.
- The signed tokens (itsdangerous, with a 3600 s expiry) are not modelled. `ResetPassword` takes the e-mail the token carried, or `None` for a bad or expired one.
- Password salts and hashing are opaque functions.
- The LLM chain is one deterministic function from messages to a parsed record or an error. Its real answers are not modelled, and neither are the system prompt's text, `temperature` and `max_tokens`.
- `ChainServer.Server.Analyze` does not model the response model `ImageAnalysisResponse(**result)` (chain-server/server.py:199-203, 338). The answer is the analyzer's record as it is. The code narrows it to `dishes`, `confidence` and `error`, so `total_weight` and any other key are dropped, and pydantic coerces the values. A record that fails that validation is a 500 raised after the cleanup.
- `ChainServer.Server.Analyze` and `ChainServer.Server.AnalyzeNutrients`: the 500 for a result the handler cannot log carries the fixed text `LogFailureDetail`. In the code it carries the text of Python's own exception.
- `ChainServer.Server.Analyze` does not model the creation of the temporary directory. It does not model a failure to write the temporary file, either.
- `ChainServer.Server.Analyze` does not model a failed removal, which the code only logs. Under the corrected rule the removed file is the one just written, so it exists.
- `ChainServer.Server.AnalyzeWrapper`: a true `image_path` that is not a string is passed on to the analyzer by the code. For an integer that is not an open file descriptor, `os.path.exists` is false, and the analyzer answers its not-found error record, "Изображение не найдено: <n>" (chain-server/food_analyzer.py:83-84). Other values fail inside the analyzer with the text of Python's own exception. The model answers all of them with one fixed error record, "image_path is not a string".
- `ChainServer.Server.Startup`: a failure inside the service constructors is not modelled. The model's start-up succeeds whenever the key is set.
- The `/health` endpoint, the CORS and timing middleware, the logging set-up and LangServe's `add_routes` are not modelled. They are framework I/O.
- `MailPreflight.TestEmailConfig`: the SMTP session is a single function from the mode to success. Every SMTP exception the script catches becomes `False`. The message content and the console output are not modelled.
- Loading YAML is a parameter: the parsed document, or `None` for a missing or malformed file.

## Findings

| source | as written | input that shows it | evidently intended | confidence | as-written member | corrected member |
|---|---|---|---|---|---|---|
| chain-server/server.py:330-336 | the analysed path is removed whenever `image_base64` is non-empty | `{"image_path": "photos/salad.jpg", "image_base64": "QUJD"}`: the local file wins the selection, is analysed, and is then deleted | remove only the temporary file written from `image_base64`; the comment on line 330 limits the removal to a file the handler created | not executed | ChainServer.RemovedAfterAnalysisAsWritten, ChainServer.AsWrittenDeletesCallerFile | ChainServer.RemovedAfterAnalysis |
