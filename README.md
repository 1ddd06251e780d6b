# URL shortener core in Dafny

A model of the core of a small Express URL shortener (`server.js`): the
short-code generator, and the in-memory URL table that the shorten, redirect
and listing handlers read and write, together with its snapshot file.

- `short_code.dfy`, module `ShortCode`: the generator. The source picks nine
  characters from the alphabet `abcdefghijklmnopqrstuvwxyz0123456789` with
  `Math.random` and prints them as three triplets joined by `-`. Here the
  random choices are an input, a *draw*: nine alphabet positions in `[0, 36)`.
  `GenerateCustomShortCode` keeps the source's loop that appends one character
  per pass. The generated code is specified by `Format(Picked(draw))`. The
  lemmas show that the generator is a bijection between draws and strings of
  the shape `IsShortCode`: every draw prints a well-formed code, every
  well-formed code is printed by some draw, and different draws print
  different codes. `RemoveHyphens` undoes `Format`, in both directions.
- `url_table.dfy`, module `UrlTable`: the class `UrlDatabase`. It holds the
  table `urls: map<string, string>` and a ghost `snapshot`, which stands for
  the contents of `urls.json` (`None` while no file exists). The validator
  `validUrl.isUri` is an uninterpreted function `isUri` that the table is
  constructed with. `Shorten` updates the table in place and then rewrites the
  snapshot. `Resolve` and `ListUrls` are reads.

The code has no collision check. A shorten whose code is already a key
replaces the stored URL, and the model does exactly that, with no retry loop.
`SameDrawOverwrites` shows the lost entry.

Persistence round trip: after a successful `Shorten` the snapshot is
`Some(urls)` (`Persisted()`), and `Restart` proves that loading that file
gives back the same table.

## Model

| member | source | states |
|---|---|---|
| ShortCode.GenerateCustomShortCode | server.js:27-36 | the nine-pass loop yields a code of the shape `IsShortCode` (length 11, `-` at positions 3 and 7, every other character in the 36-symbol alphabet); with the hyphens removed it is exactly nine characters whose i-th is `Alphabet[draw[i]]`; it equals `Format(Picked(draw))` |
| ShortCode.Picked | server.js:28-33 | the string the loop builds: nine characters, the i-th being the alphabet character at the i-th drawn position |
| ShortCode.Format | server.js:35 | the triplet layout: length 11, `-` at positions 3 and 7, and the three slices of the nine characters at 0-2, 4-6 and 8-10 |
| ShortCode.FormatIsShortCode | server.js:35 | cutting nine alphabet characters into three hyphen-joined triplets gives a string of the code shape |
| ShortCode.PickedHasNoHyphen | server.js:28-33 | the characters a draw picks are nine alphabet characters, none of them a hyphen |
| ShortCode.AlphabetHasNoHyphen | server.js:28 | the alphabet contains no `-`, and each of its 36 positions is recovered from its character |
| ShortCode.RemoveHyphensFormat | server.js:31-35 | removing the two hyphens from a formatted code gives back, in order, the nine characters the loop built |
| ShortCode.FormatRemoveHyphens | server.js:35 | conversely, any string of the code shape is the triplet layout of its own hyphen-free characters |
| ShortCode.EveryShortCodeIsGenerated | server.js:28-35 | every string of the code shape is produced by some draw: the generator reaches the whole code space |
| ShortCode.GenerationIsInjective | server.js:28-35 | two draws that print the same code are the same draw, so a collision happens exactly when the random choices repeat |
| ShortCode.RemoveHyphensAppend | server.js:35 | removing hyphens distributes over concatenation, which the triplet layout is built from |
| UrlTable.ShortUrl | server.js:62 | the displayed short URL is `http://localhost:5000/` followed by the code, from which the code can be read back |
| UrlTable.UrlDatabase.Load | server.js:20-24 | at startup the table is empty when no snapshot file exists and equals the file's contents otherwise, in which case memory and file agree |
| UrlTable.UrlDatabase.Resolve | server.js:81-98 | a code resolves to its stored URL exactly when it is a key whose value is truthy (non-empty); a missing key or an empty URL is not found; the table is only read |
| UrlTable.UrlDatabase.ListUrls | server.js:101-103 | the listing returns the whole table unchanged and changes nothing |
| UrlTable.UrlDatabase.Shorten | server.js:49-66 | an invalid URL returns before any change, leaving table and snapshot as they were; a valid one stores the URL under `Format(Picked(draw))`, overwriting any entry there, keeps every other key and value, adds at most that one key, leaves the snapshot equal to the table, returns the code and its short URL, and a non-empty URL then resolves; well-formed tables stay well-formed |
| UrlTable.SameDrawOverwrites | server.js:61-65 | two valid shortens with the same draw get the same code, which then holds the second URL whatever it is (and resolves to it when it is non-empty); the first URL is lost and the table grows by at most one key |
| UrlTable.Restart | server.js:20-24 | loading the snapshot file that a successful shorten wrote (server.js:66) restarts with the same table, in agreement with the file |
| UrlTable.StartWithoutFile | server.js:21-24 | without a snapshot file the table uses the given validator, nothing resolves, the listing is empty and no snapshot exists yet (`snapshot == None`) |

## Left out

- HTTP plumbing: Express routing, body parsing, EJS rendering, redirects, status codes and JSON response shapes (server.js:3-17, 44-46, 54-57, 72-77, 88-96).
- `isApiRequest` (server.js:39-41): it only chooses the response shape.
- QR image generation with `qr-image` (server.js:69): a foreign library call on the short URL.
- `validUrl.isUri` (server.js:53): a foreign call; the model takes it as an arbitrary `string -> bool` and assumes nothing about it (in particular not that it rejects `""`, which is why `Resolve` mirrors the truthiness test).
- `Math.random` and its floating-point scaling (server.js:32): replaced by the nine integer positions of a draw; that they lie in `[0, 36)` is what `Math.floor(Math.random() * 36)` guarantees.
- File I/O and JSON encoding (server.js:22-23, 66): the snapshot file is a ghost map; read and write failures, and a file whose JSON is not an object of strings, are not modelled.
- UrlTable.UrlDatabase.Load: a `urls.json` that does not parse makes `JSON.parse` throw at server.js:23 while the module loads, before `app.listen`, so the process stops instead of starting; the model's `Load` always receives either no file or a map of strings.
- UrlTable.UrlDatabase.Shorten: when `writeFileSync` throws at server.js:66, the request fails after server.js:65 has already changed `urlDatabase`, so memory holds the new entry while the file keeps the old table, or, when the write fails after the file was opened and emptied (flag `'w'`), holds incomplete JSON that stops the next start at server.js:23; the model's write always succeeds, and its unconditional `Persisted()` does not capture that failure.
- Request bodies whose `url` is not a string (missing, an array): the model's `longUrl` is always a string.
- The table is a plain map. Keys inherited from the JavaScript object prototype (`constructor`, `toString`) resolve in the source to truthy built-in values; the model does not represent them.
- Console logging and `app.listen` (server.js:85, 106-108).
- Concurrency: the server handles requests one callback at a time and the model has none.
