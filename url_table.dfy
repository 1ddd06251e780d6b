/**
 * The in-memory URL table of the shortener and the operations the HTTP
 * handlers perform on it: loading it at startup, shortening a URL (validate,
 * generate a code, store, write the snapshot file), resolving a code and
 * listing the whole table.
 *
 * The snapshot file (`urls.json`) is a ghost field: `None` while no file
 * exists, otherwise the table it holds. The URL validator of the `valid-url`
 * package is a function the table is constructed with; nothing about it is
 * assumed.
 */
module UrlTable {
  import opened ShortCode

  datatype Option<T> = None | Some(value: T)

  /**
   * What every displayed short URL starts with: `http://localhost:`, the
   * server's port 5000, and `/`.
   */
  const Origin: string := "http://localhost:5000/"

  /** The short URL shown to the user; derived from the code, never stored. */
  function ShortUrl(code: string): (url: string)
    ensures |url| == |Origin| + |code|
    ensures url[..|Origin|] == Origin
    ensures url[|Origin|..] == code
  {
    Origin + code
  }

  /** JavaScript truthiness of a string: only the empty string is falsy. */
  predicate Truthy(s: string) {
    s != ""
  }

  /** What a shorten request reports back. */
  datatype ShortenResult =
    | InvalidUrl
    | Shortened(shortCode: string, shortUrl: string, longUrl: string)

  class UrlDatabase {
    /** The URL validator (`validUrl.isUri`). */
    const isUri: string -> bool
    /** The table: short code to long URL. */
    var urls: map<string, string>
    /** Contents of the snapshot file; `None` when there is no file. */
    ghost var snapshot: Option<map<string, string>>

    /** Every key has the generator's shape and every value passed validation. */
    ghost predicate WellFormed()
      reads this
    {
      forall code :: code in urls ==> IsShortCode(code) && isUri(urls[code])
    }

    /** The snapshot file holds exactly the in-memory table. */
    ghost predicate Persisted()
      reads this
    {
      snapshot == Some(urls)
    }

    /**
     * Startup: the table starts empty and is replaced by the parsed file
     * when the file exists.
     */
    constructor Load(isUri: string -> bool, file: Option<map<string, string>>)
      ensures this.isUri == isUri
      ensures snapshot == file
      ensures file.None? ==> urls == map[] && WellFormed()
      ensures file.Some? ==> urls == file.value && Persisted()
    {
      this.isUri := isUri;
      urls := map[];
      if file.Some? {
        urls := file.value;
      }
      snapshot := file;
    }

    /**
     * Redirect lookup: a code is found when it is a key whose value is
     * truthy; a missing key and an empty stored URL are both "not found".
     */
    function Resolve(code: string): (r: Option<string>)
      reads this
      ensures r.Some? <==> code in urls && Truthy(urls[code])
      ensures r.Some? ==> r.value == urls[code]
    {
      if code !in urls then None
      else if Truthy(urls[code]) then Some(urls[code])
      else None
    }

    /** The listing endpoint: the whole table, unchanged. */
    function ListUrls(): (all: map<string, string>)
      reads this
      ensures all == urls
    {
      urls
    }

    /**
     * Shorten request. An invalid URL is rejected before anything changes.
     * Otherwise a code is generated from the draw and stored with no
     * collision check, so an existing entry under that code is replaced;
     * then the whole table is written to the snapshot file.
     */
    method Shorten(longUrl: string, draw: seq<int>) returns (r: ShortenResult)
      requires IsDraw(draw)
      modifies this
      ensures !isUri(longUrl) ==> r == InvalidUrl && urls == old(urls) && snapshot == old(snapshot)
      ensures isUri(longUrl) ==>
        var code := Format(Picked(draw));
        r == Shortened(code, ShortUrl(code), longUrl) &&
        urls == old(urls)[code := longUrl] &&
        Persisted()
      ensures r.Shortened? ==> IsShortCode(r.shortCode)
      ensures r.Shortened? ==> urls.Keys == old(urls).Keys + {r.shortCode} && urls[r.shortCode] == longUrl
      ensures r.Shortened? ==>
        forall code :: code in old(urls) && code != r.shortCode ==> code in urls && urls[code] == old(urls)[code]
      ensures r.Shortened? && Truthy(longUrl) ==> Resolve(r.shortCode) == Some(longUrl)
      ensures old(WellFormed()) ==> WellFormed()
    {
      if !isUri(longUrl) {
        return InvalidUrl;
      }
      var shortCode := GenerateCustomShortCode(draw);
      var shortUrl := ShortUrl(shortCode);
      urls := urls[shortCode := longUrl];
      snapshot := Some(urls);
      r := Shortened(shortCode, shortUrl, longUrl);
    }
  }

  /**
   * Two valid shorten requests whose random draws coincide: the first URL
   * is lost, because nothing checks whether the code is already taken.
   */
  method SameDrawOverwrites(db: UrlDatabase, first: string, second: string, draw: seq<int>)
      returns (r1: ShortenResult, r2: ShortenResult)
    requires IsDraw(draw)
    requires db.isUri(first) && db.isUri(second)
    modifies db
    ensures r1.Shortened? && r2.Shortened? && r1.shortCode == r2.shortCode
    ensures r1.shortCode in db.urls && db.urls[r1.shortCode] == second
    ensures Truthy(second) ==> db.Resolve(r1.shortCode) == Some(second)
    ensures |db.urls| <= |old(db.urls)| + 1
  {
    r1 := db.Shorten(first, draw);
    ghost var afterFirst := db.urls;
    r2 := db.Shorten(second, draw);
    assert db.urls.Keys == afterFirst.Keys;
  }

  /**
   * Restarting the server on the snapshot file the running one wrote gives
   * back the same table, already in agreement with the file.
   */
  method Restart(db: UrlDatabase, file: map<string, string>) returns (db2: UrlDatabase)
    requires db.Persisted() && db.snapshot == Some(file)
    ensures db2.isUri == db.isUri
    ensures db2.urls == db.urls && db2.Persisted()
  {
    db2 := new UrlDatabase.Load(db.isUri, Some(file));
  }

  /** A fresh start without a snapshot file: nothing resolves and the listing is empty. */
  method StartWithoutFile(isUri: string -> bool, code: string) returns (db: UrlDatabase)
    ensures db.isUri == isUri
    ensures db.Resolve(code) == None && db.ListUrls() == map[]
    ensures db.snapshot == None
  {
    db := new UrlDatabase.Load(isUri, None);
  }
}
