/** The image cache: the file name of each downloaded image, the manifest of
    earlier downloads (one JSON object per line, the last one per url wins),
    the choice of which urls still need a download, and the tally of the
    manifest entries written after the downloads. Path joining, path
    comparison, file existence, the url parser, the JSON decoder and the
    downloads themselves are parameters. */
module FetchImages {
  import opened Strings
  import opened PyData
  import opened Ordering

  // ---------------------------------------------------------------- file names

  /** path.rstrip("/"). */
  function RStripSlash(s: string): (r: string)
    ensures r <= s
    ensures r == [] || r[|r| - 1] != '/'
    ensures forall i :: |r| <= i < |s| ==> s[i] == '/'
    decreases |s|
  {
    if s != [] && s[|s| - 1] == '/' then RStripSlash(s[..|s| - 1]) else s
  }

  /** os.path.basename: the part after the last "/". */
  function Basename(p: string): (r: string)
    ensures |r| <= |p| && r == p[|p| - |r|..]
    ensures forall i :: 0 <= i < |r| ==> r[i] != '/'
    ensures |r| < |p| ==> p[|p| - |r| - 1] == '/'
    decreases |p|
  {
    if p == [] || p[|p| - 1] == '/' then [] else Basename(p[..|p| - 1]) + [p[|p| - 1]]
  }

  /** The fallback name of image `index` when the url path names no file. */
  function FallbackName(index: nat): string
  {
    "image_" + Pad2(index) + ".jpg"
  }

  /** filename_for, given the path that urlparse finds in the url: the
      two-digit index, "_", and the last path segment, or the fallback name
      when the path is empty or only slashes. */
  function FilenameFor(urlPath: string, index: nat): string
  {
    var name := Basename(RStripSlash(urlPath));
    Pad2(index) + "_" + (if name == "" then FallbackName(index) else name)
  }

  /** The name part after the index is never empty and holds no "/". A path
      made only of slashes (the empty path included) gets the fallback name;
      any other path gets its last segment once trailing slashes are removed. */
  lemma FilenameShape(urlPath: string, index: nat)
    ensures var f := FilenameFor(urlPath, index);
      var prefix := Pad2(index) + "_";
      prefix <= f && |f| > |prefix| && forall i :: |prefix| <= i < |f| ==> f[i] != '/'
    ensures (forall i :: 0 <= i < |urlPath| ==> urlPath[i] == '/') ==>
      FilenameFor(urlPath, index) == Pad2(index) + "_" + FallbackName(index)
    ensures var trimmed := RStripSlash(urlPath);
      var name := Basename(trimmed);
      (exists i :: 0 <= i < |urlPath| && urlPath[i] != '/') ==>
        name != "" && FilenameFor(urlPath, index) == Pad2(index) + "_" + name &&
        name == trimmed[|trimmed| - |name|..]
  {
    FilenameNamePart(urlPath, index);
    NameEmptyIffSlashes(urlPath);
  }

  /** After the index and "_" comes a non-empty name without "/". */
  lemma FilenameNamePart(urlPath: string, index: nat)
    ensures var f := FilenameFor(urlPath, index);
      var prefix := Pad2(index) + "_";
      prefix <= f && |f| > |prefix| && forall i :: |prefix| <= i < |f| ==> f[i] != '/'
  {
    var prefix := Pad2(index) + "_";
    var name := Basename(RStripSlash(urlPath));
    var f := FilenameFor(urlPath, index);
    var rest := if name == "" then FallbackName(index) else name;
    FallbackNoSlash(index);
    assert |rest| > 0 && forall i :: 0 <= i < |rest| ==> rest[i] != '/';
    AppendNoSlash(prefix, rest);
  }

  /** prefix + rest starts with prefix and has no "/" past it when rest has none. */
  lemma AppendNoSlash(prefix: string, rest: string)
    requires forall i :: 0 <= i < |rest| ==> rest[i] != '/'
    ensures prefix <= prefix + rest
    ensures forall i :: |prefix| <= i < |prefix + rest| ==> (prefix + rest)[i] != '/'
  {
    assert forall i :: |prefix| <= i < |prefix + rest| ==> (prefix + rest)[i] == rest[i - |prefix|];
  }

  lemma FallbackNoSlash(index: nat)
    ensures forall i :: 0 <= i < |FallbackName(index)| ==> FallbackName(index)[i] != '/'
  {
    Pad2Digits(index);
    var d := Pad2(index);
    assert FallbackName(index) == "image_" + d + ".jpg";
    forall i | 0 <= i < |FallbackName(index)| ensures FallbackName(index)[i] != '/' {
      if 6 <= i < 6 + |d| {
        assert FallbackName(index)[i] == d[i - 6];
      }
    }
  }

  /** The last segment is empty exactly when the path is only slashes. */
  lemma NameEmptyIffSlashes(urlPath: string)
    ensures Basename(RStripSlash(urlPath)) == "" <==> forall i :: 0 <= i < |urlPath| ==> urlPath[i] == '/'
  {
    var trimmed := RStripSlash(urlPath);
    if trimmed != [] {
      assert urlPath[|trimmed| - 1] == trimmed[|trimmed| - 1];
    }
  }

  /** Images at different positions of a list never share a file name. */
  lemma FilenameIndexInjective(p: string, q: string, i: nat, j: nat)
    requires FilenameFor(p, i) == FilenameFor(q, j)
    ensures i == j
  {
    var np := Basename(RStripSlash(p));
    var nq := Basename(RStripSlash(q));
    Pad2Digits(i);
    Pad2Digits(j);
    DigitsBeforeUnderscore(Pad2(i), Pad2(j), if np == "" then FallbackName(i) else np,
      if nq == "" then FallbackName(j) else nq);
    Pad2Injective(i, j);
  }

  /** Two names made of a run of digits, "_" and a rest agree on the digits. */
  lemma DigitsBeforeUnderscore(a: string, b: string, x: string, y: string)
    requires forall k :: 0 <= k < |a| ==> IsDigit(a[k])
    requires forall k :: 0 <= k < |b| ==> IsDigit(b[k])
    requires a + "_" + x == b + "_" + y
    ensures a == b
  {
    var f := a + "_" + x;
    assert f[|a|] == '_';
    assert (b + "_" + y)[|b|] == '_';
    assert a == f[..|a|] == b;
  }

  // ---------------------------------------------------------------- manifest

  /** One manifest line: skipped (Success(None)) when blank, not valid JSON
      or without a truthy url, else its url and record. A record that is not
      a dictionary has no .get (AttributeError), and a list or dictionary url
      cannot be a key (TypeError). */
  function LineEntry(line: string, parseJson: string -> Option<Value>): Result<Option<(Value, Dict)>>
  {
    var s := Strip(line);
    if s == "" then Success(None)
    else
      match parseJson(s)
      case None => Success(None)
      case Some(rec) =>
        if !rec.VDict? then Failure("AttributeError")
        else
          var url := Get(rec.entries, "url");
          if !Truthy(url) then Success(None)
          else if url.VList? || url.VDict? then Failure("TypeError")
          else Success(Some((url, rec.entries)))
  }

  /** A line is skipped exactly when it is blank, does not decode, or decodes
      to a record whose url is falsy. */
  lemma LineSkipped(line: string, parseJson: string -> Option<Value>)
    ensures LineEntry(line, parseJson) == Success(None) <==>
      IsBlank(line) || parseJson(Strip(line)).None? ||
      (parseJson(Strip(line)).value.VDict? && !Truthy(Get(parseJson(Strip(line)).value.entries, "url")))
  {
    StripEmptyIffBlank(line);
  }

  /** What each line of the file yields. */
  function LineEntries(lines: seq<string>, parseJson: string -> Option<Value>): (r: seq<Result<Option<(Value, Dict)>>>)
    ensures |r| == |lines| && forall i :: 0 <= i < |lines| ==> r[i] == LineEntry(lines[i], parseJson)
  {
    seq(|lines|, i requires 0 <= i < |lines| => LineEntry(lines[i], parseJson))
  }

  /** The entry records url u. */
  predicate Keyed(e: Result<Option<(Value, Dict)>>, u: Value)
  {
    e.Success? && e.value.Some? && e.value.value.0 == u
  }

  /** The manifest built from the line entries: each entry overwrites the
      earlier one for its url; the first entry that raises ends the read. */
  function ManifestOf(es: seq<Result<Option<(Value, Dict)>>>): Result<map<Value, Dict>>
    decreases |es|
  {
    if es == [] then Success(map[])
    else
      var prev := ManifestOf(es[..|es| - 1]);
      if prev.Failure? then prev
      else
        match es[|es| - 1]
        case Failure(e) => Failure(e)
        case Success(None) => prev
        case Success(Some(entry)) => Success(prev.value[entry.0 := entry.1])
  }

  /** load_manifest: an absent file is an empty manifest. */
  function Manifest(file: Option<seq<string>>, parseJson: string -> Option<Value>): Result<map<Value, Dict>>
  {
    if file.None? then Success(map[]) else ManifestOf(LineEntries(file.value, parseJson))
  }

  /** load_manifest: read the lines in order, keeping the last entry per url. */
  method LoadManifest(file: Option<seq<string>>, parseJson: string -> Option<Value>)
    returns (r: Result<map<Value, Dict>>)
    ensures r == Manifest(file, parseJson)
  {
    if file.None? {
      return Success(map[]);
    }
    var lines := file.value;
    ghost var es := LineEntries(lines, parseJson);
    var records: map<Value, Dict> := map[];
    for i := 0 to |lines|
      invariant ManifestOf(es[..i]) == Success(records)
    {
      assert es[..i + 1][..i] == es[..i];
      var entry := LineEntry(lines[i], parseJson);
      if entry.Failure? {
        ManifestFailureSticks(es, i + 1);
        return Failure(entry.error);
      }
      if entry.value.Some? {
        records := records[entry.value.value.0 := entry.value.value.1];
      }
    }
    assert es[..|lines|] == es;
    return Success(records);
  }

  /** Once a prefix raises, reading the rest changes nothing. */
  lemma {:induction false} ManifestFailureSticks(es: seq<Result<Option<(Value, Dict)>>>, n: int)
    requires 0 <= n <= |es| && ManifestOf(es[..n]).Failure?
    ensures ManifestOf(es) == ManifestOf(es[..n])
    decreases |es| - n
  {
    if n == |es| {
      assert es[..n] == es;
    } else {
      assert es[..n + 1][..n] == es[..n];
      ManifestFailureSticks(es, n + 1);
    }
  }

  /** Reading fails exactly when some line raises. */
  lemma {:induction false} ManifestFails(es: seq<Result<Option<(Value, Dict)>>>)
    ensures ManifestOf(es).Failure? <==> exists i :: 0 <= i < |es| && es[i].Failure?
    decreases |es|
  {
    if es != [] {
      var init := es[..|es| - 1];
      ManifestFails(init);
      assert forall i :: 0 <= i < |init| ==> init[i] == es[i];
    }
  }

  /** One more line: a successful read extends the read of the lines before it. */
  lemma ManifestStep(es: seq<Result<Option<(Value, Dict)>>>)
    requires es != [] && ManifestOf(es).Success?
    ensures ManifestOf(es[..|es| - 1]).Success? && es[|es| - 1].Success?
    ensures ManifestOf(es).value == if es[|es| - 1].value.Some?
      then ManifestOf(es[..|es| - 1]).value[es[|es| - 1].value.value.0 := es[|es| - 1].value.value.1]
      else ManifestOf(es[..|es| - 1]).value
  {
  }

  /** A url is in the manifest exactly when some line records it. */
  lemma {:induction false} ManifestHas(es: seq<Result<Option<(Value, Dict)>>>, u: Value)
    requires ManifestOf(es).Success?
    ensures u in ManifestOf(es).value <==> exists i :: 0 <= i < |es| && Keyed(es[i], u)
    decreases |es|
  {
    if es != [] {
      var n := |es| - 1;
      var init := es[..n];
      ManifestStep(es);
      ManifestHas(init, u);
      assert forall i :: 0 <= i < n ==> init[i] == es[i];
    }
  }

  /** Last entry wins: a url's record is that of the last line recording it. */
  lemma {:induction false} ManifestLastWins(es: seq<Result<Option<(Value, Dict)>>>, u: Value)
    requires ManifestOf(es).Success?
    ensures u in ManifestOf(es).value ==>
      exists i :: 0 <= i < |es| && es[i] == Success(Some((u, ManifestOf(es).value[u]))) &&
        forall j :: i < j < |es| ==> !Keyed(es[j], u)
    decreases |es|
  {
    if es != [] {
      var n := |es| - 1;
      var init := es[..n];
      var m := ManifestOf(es).value;
      ManifestStep(es);
      var prev := ManifestOf(init).value;
      ManifestLastWins(init, u);
      if !Keyed(es[n], u) && u in m {
        assert u in prev && m[u] == prev[u];
        var i :| 0 <= i < n && init[i] == Success(Some((u, prev[u]))) &&
          forall j :: i < j < n ==> !Keyed(init[j], u);
        assert es[i] == init[i];
        forall j | i < j < |es| ensures !Keyed(es[j], u) {
          if j < n { assert es[j] == init[j]; }
        }
      }
    }
  }

  // ---------------------------------------------------------------- jobs

  /** The run's settings and the file system, as functions: the output
      directory, --rewrite, urlparse's path, `/` on paths, Path.exists and
      Path equality. */
  datatype Env = Env(outDir: string, rewrite: bool, urlPath: string -> string,
    join: (string, string) -> string, pathExists: string -> bool, samePath: (string, string) -> bool)

  /** A download to do: (request_id, url, local_path). */
  datatype Job = Job(requestId: Value, url: string, localPath: string)

  /** The skip test for one url: its manifest entry is a non-empty record,
      --rewrite is off, the status is "ok" and the recorded path (default "")
      exists and is the target path. A recorded path that is not a string
      makes Path() raise TypeError; an absent one whose default "" exists
      raises KeyError on the second lookup. */
  function Skip(entry: Option<Dict>, local: string, env: Env): Result<bool>
  {
    if entry.Some? && Truthy(VDict(entry.value)) && !env.rewrite && PyEq(Get(entry.value, "status"), VStr("ok")) then
      var recorded := if HasKey(entry.value, "local_path") then Get(entry.value, "local_path") else VStr("");
      if !recorded.VStr? then Failure("TypeError")
      else if !env.pathExists(recorded.s) then Success(false)
      else if !HasKey(entry.value, "local_path") then Failure("KeyError")
      else Success(env.samePath(recorded.s, local))
    else Success(false)
  }

  /** A url is skipped exactly when all five conditions hold; the test raises
      only for an "ok" entry whose recorded path is not a string, or is absent
      while "" exists. */
  lemma SkipIff(entry: Option<Dict>, local: string, env: Env)
    ensures Skip(entry, local, env) == Success(true) <==>
      entry.Some? && entry.value != [] && !env.rewrite && PyEq(Get(entry.value, "status"), VStr("ok")) &&
      HasKey(entry.value, "local_path") && Get(entry.value, "local_path").VStr? &&
      env.pathExists(Get(entry.value, "local_path").s) && env.samePath(Get(entry.value, "local_path").s, local)
    ensures Skip(entry, local, env).Failure? <==>
      entry.Some? && entry.value != [] && !env.rewrite && PyEq(Get(entry.value, "status"), VStr("ok")) &&
      ((HasKey(entry.value, "local_path") && !Get(entry.value, "local_path").VStr?) ||
       (!HasKey(entry.value, "local_path") && env.pathExists("")))
    ensures entry.None? || env.rewrite ==> Skip(entry, local, env) == Success(false)
  {
  }

  /** The manifest's entry for a url, as seen_manifest.get(url). */
  function Lookup(seen: map<Value, Dict>, u: string): Option<Dict>
  {
    if VStr(u) in seen then Some(seen[VStr(u)]) else None
  }

  /** The jobs for image `idx` of a row: none for a non-string or blank url
      or one the manifest lets us skip, else one job for the stripped url. */
  function UrlJob(requestId: Value, targetDir: string, idx: nat, url: Value, seen: map<Value, Dict>, env: Env)
    : Result<seq<Job>>
  {
    if !url.VStr? || Strip(url.s) == "" then Success([])
    else
      var u := Strip(url.s);
      var local := env.join(targetDir, FilenameFor(env.urlPath(u), idx));
      match Skip(Lookup(seen, u), local, env)
      case Failure(e) => Failure(e)
      case Success(skip) => Success(if skip then [] else [Job(requestId, u, local)])
  }

  /** The results in order, concatenated; the first failure raises. */
  function Concat<T>(rs: seq<Result<seq<T>>>): Result<seq<T>>
    decreases |rs|
  {
    if rs == [] then Success([])
    else
      var prev := Concat(rs[..|rs| - 1]);
      if prev.Failure? then prev
      else if rs[|rs| - 1].Failure? then Failure(rs[|rs| - 1].error)
      else Success(prev.value + rs[|rs| - 1].value)
  }

  /** Once a prefix raises, the rest changes nothing. */
  lemma {:induction false} ConcatFailureSticks<T>(rs: seq<Result<seq<T>>>, n: int)
    requires 0 <= n <= |rs| && Concat(rs[..n]).Failure?
    ensures Concat(rs) == Concat(rs[..n])
    decreases |rs| - n
  {
    if n == |rs| {
      assert rs[..n] == rs;
    } else {
      assert rs[..n + 1][..n] == rs[..n];
      ConcatFailureSticks(rs, n + 1);
    }
  }

  /** Every element of a successful concatenation comes from one of the parts. */
  lemma {:induction false} ConcatMember<T>(rs: seq<Result<seq<T>>>, x: T)
    requires Concat(rs).Success? && x in Concat(rs).value
    ensures exists i :: 0 <= i < |rs| && rs[i].Success? && x in rs[i].value
    decreases |rs|
  {
    var init := rs[..|rs| - 1];
    if x in Concat(init).value {
      ConcatMember(init, x);
      var i :| 0 <= i < |init| && init[i].Success? && x in init[i].value;
      assert rs[i] == init[i];
    }
  }

  /** The jobs of a row's image list, one part per position. */
  function UrlJobParts(requestId: Value, targetDir: string, items: seq<Value>, seen: map<Value, Dict>, env: Env)
    : (r: seq<Result<seq<Job>>>)
    ensures |r| == |items|
    ensures forall idx :: 0 <= idx < |items| ==> r[idx] == UrlJob(requestId, targetDir, idx, items[idx], seen, env)
  {
    seq(|items|, idx requires 0 <= idx < |items| => UrlJob(requestId, targetDir, idx, items[idx], seen, env))
  }

  /** The directory of a request's images. */
  function TargetDir(requestId: Value, env: Env): string
  {
    env.join(env.outDir, Str(requestId))
  }

  /** The jobs of one input row: a row that is not a dictionary has no .get
      (AttributeError); a row without a truthy request_id, or whose
      image_urls is not a list, gives none. */
  function RowJobs(row: Value, seen: map<Value, Dict>, env: Env): Result<seq<Job>>
  {
    if !row.VDict? then Failure("AttributeError")
    else
      var requestId := Get(row.entries, "request_id");
      var urls := Or(Get(row.entries, "image_urls"), VList([]));
      if !Truthy(requestId) || !urls.VList? then Success([])
      else Concat(UrlJobParts(requestId, TargetDir(requestId, env), urls.items, seen, env))
  }

  /** The jobs of all rows, one part per row. */
  function RowParts(rows: seq<Value>, seen: map<Value, Dict>, env: Env): (r: seq<Result<seq<Job>>>)
    ensures |r| == |rows|
    ensures forall i :: 0 <= i < |rows| ==> r[i] == RowJobs(rows[i], seen, env)
  {
    seq(|rows|, i requires 0 <= i < |rows| => RowJobs(rows[i], seen, env))
  }

  /** The job list of main. */
  function Jobs(rows: seq<Value>, seen: map<Value, Dict>, env: Env): Result<seq<Job>>
  {
    Concat(RowParts(rows, seen, env))
  }

  /** main's job-selection loops: for each row, for each image position. */
  method CollectJobs(rows: seq<Value>, seen: map<Value, Dict>, env: Env) returns (r: Result<seq<Job>>)
    ensures r == Jobs(rows, seen, env)
  {
    ghost var parts := RowParts(rows, seen, env);
    var jobs: seq<Job> := [];
    for i := 0 to |rows|
      invariant Concat(parts[..i]) == Success(jobs)
    {
      ConcatStep(parts, i, jobs);
      var row := rows[i];
      assert parts[i] == RowJobs(row, seen, env);
      if !row.VDict? {
        ConcatFailureSticks(parts, i + 1);
        return Failure("AttributeError");
      }
      var requestId := Get(row.entries, "request_id");
      var urls := Or(Get(row.entries, "image_urls"), VList([]));
      if Truthy(requestId) && urls.VList? {
        var rowJobs := RowImageJobs(requestId, TargetDir(requestId, env), urls.items, seen, env);
        if rowJobs.Failure? {
          ConcatFailureSticks(parts, i + 1);
          return Failure(rowJobs.error);
        }
        jobs := jobs + rowJobs.value;
      } else {
        assert jobs + [] == jobs;
      }
    }
    assert parts[..|rows|] == parts;
    return Success(jobs);
  }

  /** The inner loop of main over one row's image urls. */
  method RowImageJobs(requestId: Value, targetDir: string, items: seq<Value>, seen: map<Value, Dict>, env: Env)
    returns (r: Result<seq<Job>>)
    ensures r == Concat(UrlJobParts(requestId, targetDir, items, seen, env))
  {
    ghost var urlParts := UrlJobParts(requestId, targetDir, items, seen, env);
    var rowJobs: seq<Job> := [];
    for idx := 0 to |items|
      invariant Concat(urlParts[..idx]) == Success(rowJobs)
    {
      ConcatStep(urlParts, idx, rowJobs);
      var part := UrlJob(requestId, targetDir, idx, items[idx], seen, env);
      if part.Failure? {
        ConcatFailureSticks(urlParts, idx + 1);
        return Failure(part.error);
      }
      rowJobs := rowJobs + part.value;
    }
    assert urlParts[..|items|] == urlParts;
    return Success(rowJobs);
  }

  /** One more part: it raises, or its jobs are appended. */
  lemma ConcatStep<T>(rs: seq<Result<seq<T>>>, n: int, acc: seq<T>)
    requires 0 <= n < |rs| && Concat(rs[..n]) == Success(acc)
    ensures Concat(rs[..n + 1]) == if rs[n].Failure? then Failure(rs[n].error) else Success(acc + rs[n].value)
  {
    assert rs[..n + 1][..n] == rs[..n];
  }

  /** Every element of a part that succeeded is in a successful concatenation. */
  lemma {:induction false} ConcatContains<T>(rs: seq<Result<seq<T>>>, i: int, x: T)
    requires Concat(rs).Success? && 0 <= i < |rs| && rs[i].Success? && x in rs[i].value
    ensures x in Concat(rs).value
    decreases |rs|
  {
    var init := rs[..|rs| - 1];
    if i < |rs| - 1 {
      assert init[i] == rs[i];
      ConcatContains(init, i, x);
    }
  }

  /** Job `job` is the one for image `idx` of `row`: the row has a truthy
      request_id and a list of image urls, the url at idx is a non-blank
      string whose stripped form is the job's url, the local path is the
      request's directory joined with filename_for, and the manifest does not
      let it be skipped. */
  predicate JobFrom(row: Dict, idx: int, job: Job, seen: map<Value, Dict>, env: Env)
  {
    var urls := Or(Get(row, "image_urls"), VList([]));
    Truthy(Get(row, "request_id")) && job.requestId == Get(row, "request_id") &&
    urls.VList? && 0 <= idx < |urls.items| && urls.items[idx].VStr? &&
    job.url == Strip(urls.items[idx].s) && job.url != "" &&
    job.localPath == env.join(TargetDir(job.requestId, env), FilenameFor(env.urlPath(job.url), idx)) &&
    Skip(Lookup(seen, job.url), job.localPath, env) == Success(false)
  }

  /** A row's image at idx gives a job exactly when the job shape holds. */
  lemma UrlJobShape(row: Dict, idx: int, seen: map<Value, Dict>, env: Env, job: Job)
    requires Truthy(Get(row, "request_id")) && Or(Get(row, "image_urls"), VList([])).VList?
    requires 0 <= idx < |Or(Get(row, "image_urls"), VList([])).items|
    ensures var requestId := Get(row, "request_id");
      var r := UrlJob(requestId, TargetDir(requestId, env), idx, Or(Get(row, "image_urls"), VList([])).items[idx], seen, env);
      (r.Success? && job in r.value) <==> JobFrom(row, idx, job, seen, env)
  {
  }

  /** Every job comes from an image position of some input row. */
  lemma JobOrigin(rows: seq<Value>, seen: map<Value, Dict>, env: Env, job: Job)
    requires Jobs(rows, seen, env).Success? && job in Jobs(rows, seen, env).value
    ensures exists i, idx :: 0 <= i < |rows| && rows[i].VDict? && JobFrom(rows[i].entries, idx, job, seen, env)
  {
    ConcatMember(RowParts(rows, seen, env), job);
    var i :| 0 <= i < |rows| && RowJobs(rows[i], seen, env).Success? && job in RowJobs(rows[i], seen, env).value;
    var row := rows[i].entries;
    var requestId := Get(row, "request_id");
    var items := Or(Get(row, "image_urls"), VList([])).items;
    ConcatMember(UrlJobParts(requestId, TargetDir(requestId, env), items, seen, env), job);
    var idx :| 0 <= idx < |items| && UrlJob(requestId, TargetDir(requestId, env), idx, items[idx], seen, env).Success? &&
      job in UrlJob(requestId, TargetDir(requestId, env), idx, items[idx], seen, env).value;
    UrlJobShape(row, idx, seen, env, job);
  }

  /** Conversely, every image position of the shape gets its job. */
  lemma JobComplete(rows: seq<Value>, seen: map<Value, Dict>, env: Env, job: Job, i: int, idx: int)
    requires Jobs(rows, seen, env).Success?
    requires 0 <= i < |rows| && rows[i].VDict? && JobFrom(rows[i].entries, idx, job, seen, env)
    ensures job in Jobs(rows, seen, env).value
  {
    var row := rows[i].entries;
    var requestId := Get(row, "request_id");
    var items := Or(Get(row, "image_urls"), VList([])).items;
    var parts := UrlJobParts(requestId, TargetDir(requestId, env), items, seen, env);
    UrlJobShape(row, idx, seen, env, job);
    ConcatFails(RowParts(rows, seen, env));
    assert RowJobs(rows[i], seen, env) == Concat(parts);
    ConcatContains(parts, idx, job);
    ConcatContains(RowParts(rows, seen, env), i, job);
  }

  /** A concatenation fails exactly when some part fails. */
  lemma {:induction false} ConcatFails<T>(rs: seq<Result<seq<T>>>)
    ensures Concat(rs).Failure? <==> exists i :: 0 <= i < |rs| && rs[i].Failure?
    decreases |rs|
  {
    if rs != [] {
      var init := rs[..|rs| - 1];
      ConcatFails(init);
      assert forall i :: 0 <= i < |init| ==> init[i] == rs[i];
    }
  }

  /** A row without a truthy request_id, or whose image_urls is not a list,
      adds no jobs. */
  lemma RowWithoutJobs(rows: seq<Value>, row: Dict, seen: map<Value, Dict>, env: Env)
    requires !Truthy(Get(row, "request_id")) || !Or(Get(row, "image_urls"), VList([])).VList?
    ensures Jobs(rows + [VDict(row)], seen, env) == Jobs(rows, seen, env)
  {
    var parts := RowParts(rows + [VDict(row)], seen, env);
    assert parts[..|rows|] == RowParts(rows, seen, env);
    if Jobs(rows, seen, env).Success? {
      assert Jobs(rows, seen, env).value + [] == Jobs(rows, seen, env).value;
    }
  }

  // ---------------------------------------------------------------- downloads

  /** The manifest entry a worker returns: "ok" with the digest when the
      download and the write succeed, "error" with the message otherwise. */
  function EntryFor(job: Job, startedAt: string, outcome: Result<string>): Dict
  {
    [("request_id", job.requestId), ("url", VStr(job.url)), ("local_path", VStr(job.localPath)),
     ("fetched_at", VStr(startedAt))] +
    (if outcome.Success? then [("status", VStr("ok")), ("sha256", VStr(outcome.value))]
     else [("status", VStr("error")), ("error", VStr(outcome.error))])
  }

  /** The worker for each job, given the clock and the download outcome. */
  function Worker(clock: Job -> string, fetch: Job -> Result<string>): Job -> Dict
  {
    job => EntryFor(job, clock(job), fetch(job))
  }

  /** One manifest entry per job. */
  function Downloads(jobs: seq<Job>, clock: Job -> string, fetch: Job -> Result<string>): (r: seq<Dict>)
    ensures |r| == |jobs|
  {
    MapSeq(jobs, Worker(clock, fetch))
  }

  predicate IsOk(entry: Dict)
  {
    PyEq(Get(entry, "status"), VStr("ok"))
  }

  /** ok_count: the entries whose status is "ok". */
  function OkCount(entries: seq<Dict>): nat
  {
    |Filter(entries, IsOk)|
  }

  /** err_count: the remaining entries. */
  function ErrCount(entries: seq<Dict>): int
  {
    |entries| - OkCount(entries)
  }

  /** A worker's entry says "ok" exactly when its download succeeded. */
  lemma EntryStatus(job: Job, startedAt: string, outcome: Result<string>)
    ensures IsOk(EntryFor(job, startedAt, outcome)) <==> outcome.Success?
  {
    var e := EntryFor(job, startedAt, outcome);
    assert e[4].0 == "status" && e[..4] + [e[4]] + e[5..] == e;
    assert Get(e, "status") == e[4].1 by {
      GetAt(e, 4);
    }
  }

  /** The jobs whose download succeeds, and those whose download fails. */
  function Succeeded(fetch: Job -> Result<string>): Job -> bool
  {
    j => fetch(j).Success?
  }

  function Failed(fetch: Job -> Result<string>): Job -> bool
  {
    j => fetch(j).Failure?
  }

  /** The closing tally: the ok count is the number of downloads that
      succeeded, the failed count the number that failed, and together they
      are the number of entries written, one per job. */
  lemma DownloadTally(jobs: seq<Job>, clock: Job -> string, fetch: Job -> Result<string>)
    ensures OkCount(Downloads(jobs, clock, fetch)) == |Filter(jobs, Succeeded(fetch))|
    ensures ErrCount(Downloads(jobs, clock, fetch)) == |Filter(jobs, Failed(fetch))|
    ensures OkCount(Downloads(jobs, clock, fetch)) + ErrCount(Downloads(jobs, clock, fetch)) == |jobs|
  {
    forall j ensures Succeeded(fetch)(j) == IsOk(Worker(clock, fetch)(j)) {
      EntryStatus(j, clock(j), fetch(j));
    }
    FilterMapCount(jobs, Worker(clock, fetch), IsOk, Succeeded(fetch));
    FilterPartition(jobs, Succeeded(fetch), Failed(fetch));
  }
}
