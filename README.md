# Fire Prevention AI: analysis rules and encrypted audit log, in Dafny

This project models the logic at the centre of `main.py` of the Fire Prevention AI desktop tool:

- The analyzer `fire_analysis_pipeline` computes a voltage ratio from the readings the user typed in. It runs the ordered, first-match-wins tier rules (Electrical, Overheat, Structural, Low) over the lowercased symptom text, the burn-smell answer, the photo brightness and that ratio. Then it assembles the result record.
- The form handler turns the comma-separated voltage text into a list of numbers (`run_scan`, line 205).
- `AESGCMCrypto` creates a 128-bit key file when it is absent and reads that file on every start. It frames each ciphertext as base64(nonce of 12 bytes ++ AES-GCM output) and splits the frame at byte 12 to decrypt.
- `EncryptedDB` creates the table `logs` if it does not exist. It appends one row `(id, ts, blob)` for every analysis result, where the blob is the encrypted JSON text of the result.

Modules, one per component:

| file | module | models |
|---|---|---|
| `wrappers.dfy` | `Wrappers` | `Option` and `Result`, for the places where Python raises |
| `risk.dfy` | `Risk` | substring search, lowercasing, the tier rules, `min(v / voltages[0] ...)` |
| `pipeline.dfy` | `Pipeline` | the input and result records, and `fire_analysis_pipeline` |
| `voltage_input.dfy` | `VoltageInput` | `str.split(",")`, the blank-field filter, parsing every field |
| `crypto.dfy` | `Crypto` | the key file over a path-to-bytes file system, the `AesGcmCrypto` class, the nonce/body frame |
| `audit_log.dfy` | `AuditLog` | the sqlite file as a value (`DbState`), the `Database` and `EncryptedDb` classes |

Python floats are modelled as reals. A Python exception is modelled as a `Failure`/`None` result. An example is the `ZeroDivisionError` raised when the first voltage is 0, or the `ValueError` that `AESGCM(key)` raises for a key file whose length is not 16, 24 or 32 bytes.

The following are parameters of the model:

- the foreign computations: the photo brightness, the 25-bin hue vector, the quantum score, the three prompt builders, `float()` and `json.dumps`;
- the library calls: AES-GCM, base64, and UTF-8 encoding and decoding;
- the random values: the generated key and the nonce;
- the clock (`time.time()`).

The predicate `Crypto.Sound` states what those libraries promise. AES-GCM output is the message plus a 16-byte tag, and data shorter than a tag never opens. The AEAD round trip holds for a valid key and a 12-byte nonce. Base64 and UTF-8 decoding undo their encodings.

In three places the code's behaviour is easy to misread. The model follows the code:

- A frame shorter than 12 bytes is not rejected before decryption. `raw[:12]` is then the whole frame, and the library call does the rejecting. The model passes the short nonce and the empty body to the opaque AES-GCM open function, which rejects data shorter than a tag; `Crypto.AesGcmCrypto.DecryptShortFrame` proves such a frame never decrypts.
- A zero first voltage is not turned into an input error by the form. It raises out of the analyzer, and nothing is logged.
- An existing key file is read without checking its length. A key of the wrong length only fails when the cipher is built from it.

## Model

| member | source | states |
|---|---|---|
| `Risk.Contains` | main.py:140-147 | `word in text` holds exactly when the word occurs at some index of the text |
| `Risk.TierName` | main.py:142-150 | the four tier strings stored in the record's "tier" field and passed to the stage 2 and 3 prompts: "Electrical", "Overheat", "Structural", "Low" |
| `Risk.Lower` | main.py:140 | the lowercased text has the same length, holds no ASCII capital, maps each capital to its lower-case letter and leaves every other character unchanged |
| `Risk.Classify` | main.py:141-150 | the decision list itself; what it returns for every input is stated by `Risk.ClassifyCharacterised` and the lemmas below it |
| `Risk.ClassifyCharacterised` | main.py:140-150 | Each of the four tiers holds exactly when its rule fires and no earlier rule fired. Electrical comes from rule 1, or from brightness ≥ 0.3 with ratio < 0.75. Overheat requires rule 1 to fail and brightness < 0.3. Structural requires no earlier rule and "panel"/"loose" in the text. Low is what is left. |
| `Risk.BurnInAnyCaseIsElectrical` | main.py:140-142 | "burn" in any mix of cases anywhere in the symptoms makes the tier Electrical, whatever the brightness and ratio |
| `Risk.ClassifyIgnoresCase` | main.py:140 | symptom texts that are equal after lowercasing give the same tier |
| `Risk.BurnSmellBeatsRatio` | main.py:141-146 | burn smell "yes" with ratio 0.5 is Electrical through rule 1, for any brightness |
| `Risk.QuietReportIsLow` | main.py:141-150 | empty symptoms, no smell, brightness 0.9 and ratio 0.95 give Low |
| `Risk.MinOf` | main.py:135 | the minimum of a non-empty list is one of its elements and is ≤ every element |
| `Risk.VoltageRatio` | main.py:135 | The ratio is 1.0 for no readings. It fails exactly when the first reading is 0. Otherwise it is ≤ 1, ≤ every v_k/v_0, and equal to some v_k/v_0. |
| `Risk.VoltageRatioExamples` | main.py:135 | readings [120, 90, 60] give 0.5, and no readings give 1.0 |
| `Pipeline.Analyze` | main.py:133-165 | computes the ratio, takes the image signals and the score from the collaborators, classifies and assembles the record; stated field by field in `Pipeline.AnalyzeRecord` |
| `Pipeline.AnalyzeRecord` | main.py:133-165 | The analysis fails exactly when there is at least one reading and the first is 0. Otherwise the record holds the ratio, the brightness, the vector, the score of that vector, the tier the rules give, the months unchanged and the input unchanged. The stage 1 prompt is built from the input, brightness, ratio, score, vector and months, and the stage 2 and 3 prompts from the tier's name. |
| `Pipeline.NoVoltagesMeansUnitRatio` | main.py:135-146 | without readings the analysis succeeds with ratio 1.0, and the result is Electrical only through rule 1 |
| `Pipeline.BurnSmellRecordIsElectrical` | main.py:140-153 | a record made for burn smell "yes" always carries tier Electrical |
| `Pipeline.SaggingSupplyIsElectrical` | main.py:135-146 | with a positive first reading, a reading below 75% of it, and a bright photo, the tier is Electrical (unless rule 1 already fired, which also gives Electrical) |
| `VoltageInput.IsSpace` | main.py:205 | the characters Python's `str.strip()` removes (those `str.isspace` accepts): tab through carriage return, U+001C-U+001F, space, U+0085, U+00A0, U+1680, U+2000-U+200A, U+2028, U+2029, U+202F, U+205F, U+3000 |
| `VoltageInput.IsBlank` | main.py:205 | `x.strip()` is empty exactly when every character of `x` is whitespace in the sense of `IsSpace` |
| `VoltageInput.Split` | main.py:205 | `split(",")` gives at least one field, and no field contains a comma |
| `VoltageInput.Join` | main.py:205 | the inverse of `split(",")` on comma-free fields, as stated by `VoltageInput.JoinSplit` and `VoltageInput.SplitJoin` |
| `VoltageInput.JoinSplit` | main.py:205 | joining the split fields with commas gives back the text |
| `VoltageInput.SplitJoin` | main.py:205 | splitting a comma-join of comma-free fields gives back exactly those fields |
| `VoltageInput.NonBlank` | main.py:205 | every kept field is non-blank and comes from the split, and every non-blank field of the split is kept; order and multiplicity are fixed by `NonBlankAppend` |
| `VoltageInput.NonBlankSingle` | main.py:205 | one field is kept exactly when it is not blank |
| `VoltageInput.NonBlankAppend` | main.py:205 | filtering a concatenation concatenates the filtered parts; with `NonBlankSingle` this fixes the kept fields' order and multiplicity |
| `VoltageInput.ParseAll` | main.py:205 | Parsing succeeds exactly when every field parses. It then gives one number per field, in order. |
| `VoltageInput.ParseVoltages` | main.py:205 | split, drop the blank fields, parse the rest; stated by `BlankTextHasNoVoltages`, `ParseVoltagesFields` and `SkippedBlankFieldExample` |
| `VoltageInput.BlankTextHasNoVoltages` | main.py:205 | an empty or all-whitespace voltage text yields the empty list |
| `VoltageInput.ParseVoltagesFields` | main.py:205 | text made of non-blank numeric fields joined by commas yields exactly their values, in order |
| `VoltageInput.SkippedBlankFieldExample` | main.py:205 | "120, ,60" gives [120, 60] in that order, so the first voltage and the divisor stay 120 |
| `Crypto.SplitFrame` | main.py:32-33 | `raw[:12]` and `raw[12:]` concatenate back to `raw`, and the nonce is 12 bytes long unless the frame is shorter |
| `Crypto.SplitFrameOfConcat` | main.py:28-33 | splitting `nonce ++ body` with a 12-byte nonce gives back exactly the nonce and the body |
| `Crypto.FileSystem.constructor` | main.py:20-24 | the file system the key file lives in, as a map from path to bytes, starting from the given files |
| `Crypto.LoadOrCreateKey` | main.py:21-24 | On an absent path exactly the generated key is written and returned. On an existing path nothing is written, and the file's bytes are the key. |
| `Crypto.SecondLoadIsStable` | main.py:21-24 | loading the same path again writes nothing and returns the same key |
| `Crypto.LoadOrCreateKeyFrame` | main.py:21-24 | no file other than the key path is created, removed or changed |
| `Crypto.AesGcmCrypto.Load` | main.py:19-25 | The file system afterwards is the one `LoadOrCreateKey` gives. The cipher is built exactly when the key read back is 16, 24 or 32 bytes long, and it holds that key. |
| `Crypto.AesGcmCrypto.Encrypt` | main.py:27-29 | base64 of the nonce followed by the AEAD output; its frame is stated by `EncryptFrame` and its inverse by `DecryptEncrypt` |
| `Crypto.AesGcmCrypto.Decrypt` | main.py:31-33 | base64-decode, split at byte 12, AEAD-open, UTF-8-decode, each failure an error result; it undoes `Encrypt` by `DecryptEncrypt` |
| `Crypto.AesGcmCrypto.DecryptShortFrame` | main.py:31-33 | a decoded frame shorter than nonce plus tag (28 bytes), and so every frame shorter than the 12-byte nonce, fails with an authentication error |
| `Crypto.AesGcmCrypto.EncryptFrame` | main.py:27-29 | every blob decodes to the 12-byte nonce followed by the AEAD output over the UTF-8 text |
| `Crypto.AesGcmCrypto.DecryptEncrypt` | main.py:27-33 | under the libraries' round trips, `decrypt(encrypt(s)) == s` |
| `Crypto.LoadTwice` | main.py:19-24 | Two starts on one path give ciphers with the same key and the given primitives. On a fresh path that key is the 16-byte key generated by the first start. Under the libraries' round trips, the second cipher decrypts every blob the first encrypts. |
| `AuditLog.MaxId` | main.py:44 | the largest id of a non-empty table is ≥ every row's id and belongs to some row |
| `AuditLog.NextId` | main.py:44-51 | sqlite's next rowid: 1 for an empty table, otherwise one more than the largest id, hence larger than every id in use |
| `AuditLog.NextIdIsCountPlusOne` | main.py:44-51 | in a table with ids 1..n, sqlite gives the next row id n + 1 |
| `AuditLog.CreateTableIfNotExists` | main.py:44 | `CREATE TABLE IF NOT EXISTS`; stated by `AuditLog.CreateTableProperties` |
| `AuditLog.CreateTableProperties` | main.py:42-45 | `CREATE TABLE IF NOT EXISTS` leaves a table in place and keeps its rows and ids, and running it a second time changes nothing |
| `AuditLog.Insert` | main.py:51 | the `INSERT` of one row; stated by `AuditLog.InsertAppendsOneRow` |
| `AuditLog.InsertAppendsOneRow` | main.py:47-52 | An insert adds exactly one row `(NextId, ts, blob)` whose id no earlier row has. The earlier rows are unchanged. In a table with ids 1..n the new id is n + 1. |
| `AuditLog.InsertAll` | main.py:47-52 | one insert per logged entry, in order; stated by `AuditLog.InsertAllGrows` |
| `AuditLog.InsertAllGrows` | main.py:47-52 | N inserts add exactly N rows, carrying the entries in order, with consecutive ids and the old rows unchanged |
| `AuditLog.Database.constructor` | main.py:43-51 | the sqlite file at db_path, starting from a given consistent state (no rows without a table) |
| `AuditLog.EncryptedDb.constructor` | main.py:37-40 | construction runs `_init_db`, so the table exists and the existing rows are kept |
| `AuditLog.EncryptedDb.InitDb` | main.py:42-45 | the table exists afterwards, the rows are unchanged, and ids 1..n stay 1..n |
| `AuditLog.EncryptedDb.Log` | main.py:47-52 | Exactly one row `(NextId, ts, encrypt(json(record)))` is appended, and the earlier rows are unchanged; a table with ids 1..n gets id n + 1. Under the libraries' round trips, the new blob decrypts to the record's JSON text. |

## Left out

- `quantum_fire_score` (main.py:55-66) is a PennyLane circuit simulation over complex floating-point amplitudes. Its score is an opaque function of the colour vector.
- `extract_25color_vector` and the brightness computation (main.py:69-73, 136) are OpenCV image decoding and histograms. They are opaque functions of the image paths, and a failure to read an image is not modelled.
- The AES-GCM primitive, `secrets.token_bytes`, `AESGCM.generate_key`, base64 and UTF-8 are opaque. The key and the nonce are parameters. Nonce freshness, confidentiality and tamper detection cannot be proved here: the nonces are random parameters, and the other two are properties of the cipher itself.
- The three prompt builders (main.py:76-130) are string templates. They are opaque functions of their arguments.
- `json.dumps`, `float()` and `time.time()` are parameters. Floating-point rounding, NaN and infinities are not modelled, because the model computes with reals.
- `os.makedirs` of the key's directory (main.py:20) is left out, because the file system is a map from path to bytes with no directories.
- I/O failures are not modelled: an unreadable key file, or a locked or full database.
- The check-then-create race on the key file (main.py:21-22) needs two processes. The model is sequential.
- Only the ASCII letters are lowercased by `Risk.Lower`. No non-ASCII character of Python's `str.lower` lowers to a letter of "burn", "panel" or "loose", so the tier is the same either way.
- sqlite's random rowid after the largest 64-bit id is not modelled, and neither is the `OverflowError` the AES-GCM library raises for a message over 2^31 - 1 bytes.
- AuditLog.InsertAllGrows: states consecutive ids 1..n+N only for a table whose ids were 1..n, as every table this program writes is; the source never checks an existing file's ids, and for any other file each insert still gets sqlite's `NextId`.
- The GUI (main.py:168-223) is left out, apart from the voltage text handling of line 205. This covers the widgets, the image-presence check, calling the analyzer and the logger, and the output.
