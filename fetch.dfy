/**
 * The decisions of `_fetch_file` in `alleninf/datasets.py`: which local
 * names a URL is stored under, when nothing is downloaded, how an existing
 * partial download is resumed, and when the checksum rejects the result.
 * The disk is a map from path to contents that the fetch updates in place;
 * the network and the MD5 digest are parameters.
 */
module Fetch {
  import opened Wrappers
  import opened DatasetDir

  type Bytes = seq<bv8>

  datatype FetchError =
    | DownloadError     // the `HTTPError` or `URLError` of `urllib2.urlopen`, re-raised
    | ConnectionFailed  // the `IOError` of the resuming opener when it cannot connect; nothing catches it
    | ChecksumMismatch  // "checksum verification has failed": a `ValueError`

  /** The first position in `s` of a character of `cs`, or `|s|`. */
  function IndexOfAny(s: string, cs: set<char>): (k: nat)
    ensures k <= |s| && (k < |s| ==> s[k] in cs)
    ensures forall i :: 0 <= i < k ==> s[i] !in cs
  {
    if s == [] || s[0] in cs then 0 else 1 + IndexOfAny(s[1..], cs)
  }

  /** `IndexOfAny` is the first matching position. */
  lemma {:induction false} IndexOfAnyAt(s: string, cs: set<char>, k: nat)
    requires k <= |s| && (k < |s| ==> s[k] in cs) && forall i :: 0 <= i < k ==> s[i] !in cs
    ensures IndexOfAny(s, cs) == k
  {
    if k > 0 {
      IndexOfAnyAt(s[1..], cs, k - 1);
    }
  }

  /** No character of `s` is in `cs`. */
  predicate Excludes(s: string, cs: set<char>)
  {
    forall i :: 0 <= i < |s| ==> s[i] !in cs
  }

  /** `s.split(c, 1)[0]`: `s` up to the first `c`. */
  function Before(s: string, c: char): (r: string)
    ensures |r| <= |s| && r == s[..|r|] && forall i :: 0 <= i < |r| ==> r[i] != c
  {
    s[..IndexOfAny(s, {c})]
  }

  /** The last position of `c` in `s`, if any. */
  function LastIndexOf(s: string, c: char): (k: Option<nat>)
    ensures k.Some? ==> k.value < |s| && s[k.value] == c && forall i :: k.value < i < |s| ==> s[i] != c
    ensures k.None? ==> forall i :: 0 <= i < |s| ==> s[i] != c
  {
    if s == [] then None
    else if s[|s| - 1] == c then Some(|s| - 1)
    else LastIndexOf(s[..|s| - 1], c)
  }

  predicate IsDigitChar(c: char)
  {
    '0' <= c <= '9'
  }

  predicate SchemeChar(c: char)
  {
    'a' <= c <= 'z' || 'A' <= c <= 'Z' || IsDigitChar(c) || c == '+' || c == '-' || c == '.'
  }

  /**
   * `urlsplit` removing the scheme: the text before the first `:` is a
   * scheme when it is non-empty and made of scheme characters, and either it
   * is `http` or what follows the colon is not a port number (empty or all digits).
   */
  function StripScheme(url: string): (r: string)
    ensures |r| <= |url|
  {
    var i := IndexOfAny(url, {':'});
    if i == 0 || i == |url| then url
    else
      var rest := url[i + 1..];
      if IsScheme(url[..i], rest) then rest else url
  }

  /** Whether the text before the first colon is taken as a scheme, given what follows the colon. */
  predicate IsScheme(prefix: string, rest: string)
  {
    prefix == "http" ||
    ((forall j :: 0 <= j < |prefix| ==> SchemeChar(prefix[j])) &&
     (rest == [] || exists j :: 0 <= j < |rest| && !IsDigitChar(rest[j])))
  }

  /**
   * `urlparse(url).path`: after the scheme, a `//netloc` part runs to the
   * first `/`, `?` or `#`; then the fragment and the query are cut off.
   */
  function UrlPath(url: string): string
  {
    var u := StripScheme(url);
    var path := if |u| >= 2 && u[..2] == "//" then u[2..][IndexOfAny(u[2..], {'/', '?', '#'})..] else u;
    Before(Before(path, '#'), '?')
  }

  /** `os.path.basename(path)`: everything after the last `/`. */
  function Basename(path: string): (r: string)
    ensures forall i :: 0 <= i < |r| ==> r[i] != '/'
  {
    match LastIndexOf(path, '/')
    case None => path
    case Some(k) => path[k + 1..]
  }

  /** The name a URL is stored under. `urlparse` also splits `;params` off the last path segment. */
  function FileName(url: string): (r: string)
    ensures forall i :: 0 <= i < |r| ==> r[i] != '/' && r[i] != ';'
  {
    Before(Basename(UrlPath(url)), ';')
  }

  function FullName(url: string, dataDir: string): string
  {
    PathJoin(dataDir, FileName(url))
  }

  /** The partial download: the file name with `.part` appended, in the same directory. */
  function TempName(url: string, dataDir: string): string
  {
    PathJoin(dataDir, FileName(url) + ".part")
  }

  /** The temporary file is the final file's path with `.part` appended, so the two never coincide. */
  lemma TempIsFullPlusPart(url: string, dataDir: string)
    ensures TempName(url, dataDir) == FullName(url, dataDir) + ".part"
    ensures TempName(url, dataDir) != FullName(url, dataDir)
  {
    var n := FileName(url);
    assert |n| > 0 ==> n[0] != '/';
    JoinWithSuffix(dataDir, n, ".part");
  }

  /** Appending a suffix to a relative name appends it to the joined path, even when the name is empty. */
  lemma JoinWithSuffix(dir: string, name: string, suffix: string)
    requires |name| > 0 ==> name[0] != '/'
    requires |suffix| > 0 && suffix[0] != '/'
    ensures PathJoin(dir, name + suffix) == PathJoin(dir, name) + suffix
  {
    var b := name + suffix;
    assert |b| > 0 && b[0] != '/' by {
      if name == [] {
        assert b == suffix;
      } else {
        assert b[0] == name[0];
      }
    }
    if dir == [] || dir[|dir| - 1] == '/' {
      assert dir + b == (dir + name) + suffix;
    } else {
      assert dir + "/" + b == (dir + "/" + name) + suffix;
    }
  }

  /**
   * For an `http` URL, the stored name comes from the path alone: the host,
   * the query and the fragment play no part.
   */
  lemma HttpUrlPath(host: string, path: string, suffix: string)
    requires Excludes(host, {':', '/', '?', '#'})
    requires |path| > 0 && path[0] == '/' && Excludes(path, {'?', '#'})
    requires suffix == [] || suffix[0] in {'?', '#'}
    ensures UrlPath("http://" + host + path + suffix) == path
    ensures FileName("http://" + host + path + suffix) == Before(Basename(path), ';')
  {
    var url := "http://" + host + path + suffix;
    var rest := "//" + host + path + suffix;
    assert url == "http:" + rest;
    HttpSchemeStripped(rest);
    assert rest == "//" + host + (path + suffix);
    NetlocSkipped(host, path + suffix);
    var p := rest[2..][IndexOfAny(rest[2..], {'/', '?', '#'})..];
    assert p == path + suffix;
    QueryAndFragmentCut(path, suffix);
    assert UrlPath(url) == Before(Before(p, '#'), '?');
  }

  lemma NetlocSkipped(host: string, tail: string)
    requires Excludes(host, {':', '/', '?', '#'})
    requires |tail| > 0 && tail[0] == '/'
    ensures var u := "//" + host + tail;
            |u| >= 2 && u[..2] == "//" && u[2..][IndexOfAny(u[2..], {'/', '?', '#'})..] == tail
  {
    var u := "//" + host + tail;
    assert u[2..] == host + tail;
    IndexOfAnyAt(host + tail, {'/', '?', '#'}, |host|);
  }

  lemma HttpSchemeStripped(rest: string)
    ensures StripScheme("http:" + rest) == rest
  {
    var url := "http:" + rest;
    IndexOfAnyAt(url, {':'}, 4);
    assert url[..4] == "http" && url[5..] == rest;
  }

  lemma QueryAndFragmentCut(path: string, suffix: string)
    requires Excludes(path, {'?', '#'})
    requires suffix == [] || suffix[0] in {'?', '#'}
    ensures Before(Before(path + suffix, '#'), '?') == path
  {
    var p := path + suffix;
    var k := IndexOfAny(p, {'#'});
    assert k >= |path|;
    var q := p[..k];
    assert q[..|path|] == path;
    assert |q| > |path| ==> q[|path|] == '?';
    IndexOfAnyAt(q, {'?'}, |path|);
  }

  /** The effect of one fetch: its result and the disk afterwards. */
  datatype Outcome = Outcome(result: Result<string, FetchError>, disk: map<string, Bytes>)

  /** The disk without `path`, as `os.remove` leaves it. */
  function Remove(disk: map<string, Bytes>, path: string): (r: map<string, Bytes>)
    ensures path !in r && forall p :: p != path ==> (p in r <==> p in disk) && (p in r ==> r[p] == disk[p])
  {
    disk - {path}
  }

  /** `shutil.move(temp, full)`: the contents move to the final name and the temporary name is gone. */
  function Move(disk: map<string, Bytes>, temp: string, full: string): (r: map<string, Bytes>)
    requires temp in disk && temp != full
    ensures full in r && r[full] == disk[temp] && temp !in r
    ensures forall p :: p != temp && p != full ==> (p in r <==> p in disk) && (p in r ==> r[p] == disk[p])
  {
    Remove(disk, temp)[full := disk[temp]]
  }

  /** The reply to the ranged request of a resumed download: its HTTP status and its body. */
  datatype Reply = Reply(status: int, body: Bytes)

  /**
   * The disk once the final file is removed and, with `overwrite`, the
   * partial download too: what the fetch starts from when it downloads.
   */
  function Cleared(disk: map<string, Bytes>, full: string, temp: string, overwrite: bool): (r: map<string, Bytes>)
    requires temp != full
    ensures full !in r
    ensures temp in r <==> temp in disk && !overwrite
    ensures temp in r ==> r[temp] == disk[temp]
    ensures forall p :: p != full && p != temp ==> (p in r <==> p in disk) && (p in r ==> r[p] == disk[p])
  {
    var disk1 := if full in disk then Remove(disk, full) else disk;
    if temp in disk1 && overwrite then Remove(disk1, temp) else disk1
  }

  /**
   * `_fetch_file(url, data_dir, resume, overwrite, md5sum)` on `disk`.
   * `download(url)` is the whole file, or `None` when `urllib2.urlopen`
   * raises. `remainder(url, offset)` is the reply of the resuming opener to
   * the request for the bytes from `offset` on, or `None` when it cannot
   * connect. That opener is a `FancyURLopener`, which hands back an error
   * reply like any other instead of raising `HTTPError`, so whatever the
   * status, the body of the reply is appended to the partial download.
   */
  function FetchSpec(url: string, dataDir: string, resume: bool, overwrite: bool, md5sum: Option<string>,
                     download: string -> Option<Bytes>, remainder: (string, nat) -> Option<Reply>,
                     digest: Bytes -> string, disk: map<string, Bytes>): Outcome
  {
    var full := FullName(url, dataDir);
    var temp := TempName(url, dataDir);
    TempIsFullPlusPart(url, dataDir);
    if full in disk && !overwrite then Outcome(Success(full), disk)
    else
      var cleared := Cleared(disk, full, temp, overwrite);
      if resume && temp in cleared then
        match remainder(url, |cleared[temp]|)
        case None => Outcome(Failure(ConnectionFailed), cleared)
        case Some(reply) => Finish(full, temp, md5sum, digest, cleared[temp := cleared[temp] + reply.body])
      else
        match download(url)
        case None => Outcome(Failure(DownloadError), cleared)
        case Some(data) => Finish(full, temp, md5sum, digest, cleared[temp := data])
  }

  /** Moving the completed temporary file into place and checking its digest. */
  function Finish(full: string, temp: string, md5sum: Option<string>, digest: Bytes -> string,
                  disk: map<string, Bytes>): (o: Outcome)
    requires temp in disk && temp != full
    ensures full in o.disk && o.disk[full] == disk[temp] && temp !in o.disk
    ensures o.result.Failure? <==> md5sum.Some? && digest(disk[temp]) != md5sum.value
    ensures o.result.Success? ==> o.result.value == full
  {
    var moved := Move(disk, temp, full);
    if md5sum.Some? && digest(moved[full]) != md5sum.value then Outcome(Failure(ChecksumMismatch), moved)
    else Outcome(Success(full), moved)
  }

  /** The local disk that `_fetch_file` works on. */
  class Disk {
    var files: map<string, Bytes>

    constructor (files: map<string, Bytes>)
      ensures this.files == files
    {
      this.files := files;
    }

    /** `_fetch_file`, updating the disk in place. */
    method FetchFile(url: string, dataDir: string, resume: bool, overwrite: bool, md5sum: Option<string>,
                     download: string -> Option<Bytes>, remainder: (string, nat) -> Option<Reply>,
                     digest: Bytes -> string)
      returns (r: Result<string, FetchError>)
      modifies this
      ensures Outcome(r, files) == FetchSpec(url, dataDir, resume, overwrite, md5sum, download, remainder, digest, old(files))
    {
      var fileName := FileName(url);
      var full := PathJoin(dataDir, fileName);
      var temp := PathJoin(dataDir, fileName + ".part");
      TempIsFullPlusPart(url, dataDir);
      if full in files {
        if overwrite {
          files := Remove(files, full);
        } else {
          return Success(full);
        }
      }
      if temp in files && overwrite {
        files := Remove(files, temp);
      }
      if resume && temp in files {
        var reply := remainder(url, |files[temp]|);
        if reply.None? {
          return Failure(ConnectionFailed);
        }
        files := files[temp := files[temp] + reply.value.body];
      } else {
        var data := download(url);
        if data.None? {
          return Failure(DownloadError);
        }
        files := files[temp := data.value];
      }
      files := Move(files, temp, full);
      if md5sum.Some? && digest(files[full]) != md5sum.value {
        return Failure(ChecksumMismatch);
      }
      return Success(full);
    }
  }

  /** A file that is already there, with `overwrite` off, is returned as is and nothing changes. */
  lemma ExistingFileShortCircuits(url: string, dataDir: string, resume: bool, md5sum: Option<string>,
                                  download: string -> Option<Bytes>, remainder: (string, nat) -> Option<Reply>,
                                  digest: Bytes -> string, disk: map<string, Bytes>)
    requires FullName(url, dataDir) in disk
    ensures FetchSpec(url, dataDir, resume, false, md5sum, download, remainder, digest, disk) ==
            Outcome(Success(FullName(url, dataDir)), disk)
  {
  }

  /**
   * With `overwrite` on, a successful fetch holds exactly what the server
   * sent: neither the old file nor an old partial download survives, and no
   * partial download is left behind.
   */
  lemma OverwriteDownloadsAfresh(url: string, dataDir: string, resume: bool, md5sum: Option<string>,
                                 download: string -> Option<Bytes>, remainder: (string, nat) -> Option<Reply>,
                                 digest: Bytes -> string, disk: map<string, Bytes>)
    requires download(url).Some?
    ensures var o := FetchSpec(url, dataDir, resume, true, md5sum, download, remainder, digest, disk);
            var full := FullName(url, dataDir);
            full in o.disk && o.disk[full] == download(url).value && TempName(url, dataDir) !in o.disk &&
            (o.result.Success? <==> md5sum.None? || digest(download(url).value) == md5sum.value)
  {
    TempIsFullPlusPart(url, dataDir);
  }

  /** A fresh download whose digest differs from the expected sum fails, leaving the bad file in place. */
  lemma ChecksumMismatchFails(url: string, dataDir: string, resume: bool, overwrite: bool, m: string,
                              download: string -> Option<Bytes>, remainder: (string, nat) -> Option<Reply>,
                              digest: Bytes -> string, disk: map<string, Bytes>)
    requires FullName(url, dataDir) !in disk && TempName(url, dataDir) !in disk
    requires download(url).Some? && digest(download(url).value) != m
    ensures var o := FetchSpec(url, dataDir, resume, overwrite, Some(m), download, remainder, digest, disk);
            o.result == Failure(ChecksumMismatch) && o.disk[FullName(url, dataDir)] == download(url).value
  {
    TempIsFullPlusPart(url, dataDir);
  }

  /**
   * A range the server honours (206 Partial Content) is appended to what
   * was already there, and the checksum, when given, decides the result.
   */
  lemma ResumeAppends(url: string, dataDir: string, md5sum: Option<string>,
                      download: string -> Option<Bytes>, remainder: (string, nat) -> Option<Reply>,
                      digest: Bytes -> string, disk: map<string, Bytes>)
    requires FullName(url, dataDir) !in disk && TempName(url, dataDir) in disk
    requires remainder(url, |disk[TempName(url, dataDir)]|).Some?
    requires remainder(url, |disk[TempName(url, dataDir)]|).value.status == 206
    ensures var o := FetchSpec(url, dataDir, true, false, md5sum, download, remainder, digest, disk);
            var stored := disk[TempName(url, dataDir)] + remainder(url, |disk[TempName(url, dataDir)]|).value.body;
            o.disk[FullName(url, dataDir)] == stored &&
            (o.result.Success? <==> md5sum.None? || digest(stored) == md5sum.value)
  {
    TempIsFullPlusPart(url, dataDir);
  }

  /**
   * A range the server refuses (any status but 206: a 416 for a partial
   * download that is already complete, a 200 with the whole file when the
   * server ignores `Range`) does not restart the download: the reply's body
   * is appended like a remainder, and the checksum, when given, is still
   * checked. With a non-empty partial download the stored file is then not
   * what the server sent.
   */
  lemma RefusedRangeAppendsReply(url: string, dataDir: string, md5sum: Option<string>,
                                 download: string -> Option<Bytes>, remainder: (string, nat) -> Option<Reply>,
                                 digest: Bytes -> string, disk: map<string, Bytes>)
    requires FullName(url, dataDir) !in disk && TempName(url, dataDir) in disk
    requires remainder(url, |disk[TempName(url, dataDir)]|).Some?
    requires remainder(url, |disk[TempName(url, dataDir)]|).value.status != 206
    ensures var o := FetchSpec(url, dataDir, true, false, md5sum, download, remainder, digest, disk);
            var part := disk[TempName(url, dataDir)];
            var body := remainder(url, |part|).value.body;
            o.disk[FullName(url, dataDir)] == part + body &&
            (o.result.Success? <==> md5sum.None? || digest(part + body) == md5sum.value) &&
            (|part| > 0 ==> o.disk[FullName(url, dataDir)] != body)
  {
    TempIsFullPlusPart(url, dataDir);
  }

  /** A ranged request that cannot connect aborts the fetch and leaves the partial download as it was. */
  lemma ResumeConnectionFailureKeepsPart(url: string, dataDir: string, md5sum: Option<string>,
                                         download: string -> Option<Bytes>, remainder: (string, nat) -> Option<Reply>,
                                         digest: Bytes -> string, disk: map<string, Bytes>)
    requires FullName(url, dataDir) !in disk && TempName(url, dataDir) in disk
    requires remainder(url, |disk[TempName(url, dataDir)]|).None?
    ensures FetchSpec(url, dataDir, true, false, md5sum, download, remainder, digest, disk) ==
            Outcome(Failure(ConnectionFailed), disk)
  {
    TempIsFullPlusPart(url, dataDir);
    var full, temp := FullName(url, dataDir), TempName(url, dataDir);
    assert Cleared(disk, full, temp, false) == disk;
  }

  /**
   * The fallback that the comment beside the `except urllib2.HTTPError`
   * describes: a ranged request the server does not answer with 206
   * switches back to a complete download, as the restarting call is written
   * (without resuming, overwriting or checking the checksum).
   */
  function IntendedFetchSpec(url: string, dataDir: string, resume: bool, overwrite: bool, md5sum: Option<string>,
                             download: string -> Option<Bytes>, remainder: (string, nat) -> Option<Reply>,
                             digest: Bytes -> string, disk: map<string, Bytes>): Outcome
  {
    var full := FullName(url, dataDir);
    var temp := TempName(url, dataDir);
    TempIsFullPlusPart(url, dataDir);
    var cleared := Cleared(disk, full, temp, overwrite);
    if !(full in disk && !overwrite) && resume && temp in cleared &&
       remainder(url, |cleared[temp]|).Some? && remainder(url, |cleared[temp]|).value.status != 206
    then FetchSpec(url, dataDir, false, false, None, download, remainder, digest, cleared)
    else FetchSpec(url, dataDir, resume, overwrite, md5sum, download, remainder, digest, disk)
  }

  /** With the intended fallback, a refused range stores exactly the file a complete download gets. */
  lemma IntendedRefusalDownloadsAfresh(url: string, dataDir: string, md5sum: Option<string>,
                                       download: string -> Option<Bytes>, remainder: (string, nat) -> Option<Reply>,
                                       digest: Bytes -> string, disk: map<string, Bytes>)
    requires FullName(url, dataDir) !in disk && TempName(url, dataDir) in disk
    requires remainder(url, |disk[TempName(url, dataDir)]|).Some?
    requires remainder(url, |disk[TempName(url, dataDir)]|).value.status != 206
    requires download(url).Some?
    ensures var o := IntendedFetchSpec(url, dataDir, true, false, md5sum, download, remainder, digest, disk);
            o.result == Success(FullName(url, dataDir)) && o.disk[FullName(url, dataDir)] == download(url).value &&
            TempName(url, dataDir) !in o.disk
  {
    TempIsFullPlusPart(url, dataDir);
    var full, temp := FullName(url, dataDir), TempName(url, dataDir);
    assert Cleared(disk, full, temp, false) == disk;
  }

  /** Every successful fetch returns the final path with that file on disk. */
  lemma SuccessLeavesFinalFile(url: string, dataDir: string, resume: bool, overwrite: bool,
                               md5sum: Option<string>, download: string -> Option<Bytes>,
                               remainder: (string, nat) -> Option<Reply>,
                               digest: Bytes -> string, disk: map<string, Bytes>)
    ensures var o := FetchSpec(url, dataDir, resume, overwrite, md5sum, download, remainder, digest, disk);
            o.result.Success? ==> o.result.value == FullName(url, dataDir) && FullName(url, dataDir) in o.disk
  {
    TempIsFullPlusPart(url, dataDir);
  }

  /**
   * A successful fetch that had to download (no final file yet, or
   * `overwrite`) leaves no partial download beside the final file. The early
   * return for an existing file is the exception: it leaves any stale
   * `.part` where it was.
   */
  lemma DownloadLeavesNoPart(url: string, dataDir: string, resume: bool, overwrite: bool,
                             md5sum: Option<string>, download: string -> Option<Bytes>,
                             remainder: (string, nat) -> Option<Reply>,
                             digest: Bytes -> string, disk: map<string, Bytes>)
    requires FullName(url, dataDir) !in disk || overwrite
    ensures var o := FetchSpec(url, dataDir, resume, overwrite, md5sum, download, remainder, digest, disk);
            o.result.Success? ==> TempName(url, dataDir) !in o.disk
  {
    TempIsFullPlusPart(url, dataDir);
  }

  /** The early return keeps a stale partial download: the exception above is real. */
  lemma StalePartSurvivesShortCircuit(url: string, dataDir: string, resume: bool, md5sum: Option<string>,
                                      download: string -> Option<Bytes>, remainder: (string, nat) -> Option<Reply>,
                                      digest: Bytes -> string, disk: map<string, Bytes>)
    requires FullName(url, dataDir) in disk && TempName(url, dataDir) in disk
    ensures var o := FetchSpec(url, dataDir, resume, false, md5sum, download, remainder, digest, disk);
            o.result.Success? && TempName(url, dataDir) in o.disk
  {
  }

  /**
   * A file that failed its checksum stays in place, so the same fetch made
   * again returns it as a success: the early return does not check the
   * checksum.
   */
  lemma MismatchedFileReturnedLater(url: string, dataDir: string, resume: bool, m: string,
                                    download: string -> Option<Bytes>, remainder: (string, nat) -> Option<Reply>,
                                    digest: Bytes -> string, disk: map<string, Bytes>)
    requires FullName(url, dataDir) !in disk && TempName(url, dataDir) !in disk
    requires download(url).Some? && digest(download(url).value) != m
    ensures var first := FetchSpec(url, dataDir, resume, false, Some(m), download, remainder, digest, disk);
            var again := FetchSpec(url, dataDir, resume, false, Some(m), download, remainder, digest, first.disk);
            first.result == Failure(ChecksumMismatch) &&
            again.result == Success(FullName(url, dataDir)) && again.disk[FullName(url, dataDir)] == download(url).value
  {
    ChecksumMismatchFails(url, dataDir, resume, false, m, download, remainder, digest, disk);
  }

  /**
   * Finishing as the documentation of `_fetch_file` promises ("all
   * downloaded files are removed" when the procedure fails): a file whose
   * digest differs is deleted rather than kept.
   */
  function CleanFinish(full: string, temp: string, md5sum: Option<string>, digest: Bytes -> string,
                       disk: map<string, Bytes>): (o: Outcome)
    requires temp in disk && temp != full
    ensures o.result.Failure? <==> md5sum.Some? && digest(disk[temp]) != md5sum.value
    ensures o.result.Failure? ==> full !in o.disk && temp !in o.disk
    ensures o.result.Success? ==> o.result.value == full && full in o.disk && o.disk[full] == disk[temp]
  {
    var o := Finish(full, temp, md5sum, digest, disk);
    if o.result.Failure? then Outcome(o.result, Remove(o.disk, full)) else o
  }
}
