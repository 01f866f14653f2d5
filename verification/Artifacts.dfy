/** Uploading artifacts over HTTPS (internal/agent/executor/artifacts*.go). */
module Artifacts {
  import opened Common

  datatype ProcessedPath = ProcessedPath(relativePath: string, isDir: bool, size: nat)
  datatype ProcessedPattern = ProcessedPattern(pattern: string, paths: seq<ProcessedPath>)
  datatype FileInfo = FileInfo(path: string, size: nat)

  /** Why an attempt failed. `NoUploadURL` is the uploader's own consistency error. */
  datatype Failure = RPCFailed(retryable: bool) | InvalidData | OpenFailed | UploadFailed | NoUploadURL | Cancelled

  // ---------- the files to upload ----------

  /** The files among the paths, in order; folders are skipped. */
  function FilesOf(paths: seq<ProcessedPath>): seq<FileInfo> {
    if paths == [] then []
    else
      var last := paths[|paths| - 1];
      FilesOf(paths[..|paths| - 1]) + (if last.isDir then [] else [FileInfo(last.relativePath, last.size)])
  }

  function Files(patterns: seq<ProcessedPattern>): seq<FileInfo> {
    if patterns == [] then []
    else Files(patterns[..|patterns| - 1]) + FilesOf(patterns[|patterns| - 1].paths)
  }

  /** The file lies among the paths of the patterns and is no folder. */
  ghost predicate IsUploadable(patterns: seq<ProcessedPattern>, f: FileInfo) {
    exists pattern, path :: pattern in patterns && path in pattern.paths && !path.isDir &&
      f.path == path.relativePath && f.size == path.size
  }

  lemma {:induction false} FilesOfExactly(paths: seq<ProcessedPath>, f: FileInfo)
    ensures f in FilesOf(paths) <==>
      exists path :: path in paths && !path.isDir && f.path == path.relativePath && f.size == path.size
  {
    if paths != [] {
      var init, last := paths[..|paths| - 1], paths[|paths| - 1];
      assert paths == init + [last];
      FilesOfExactly(init, f);
    }
  }

  /** Files keep the order of the paths. */
  lemma {:induction false} FilesOfInOrder(a: seq<ProcessedPath>, b: seq<ProcessedPath>)
    ensures FilesOf(a + b) == FilesOf(a) + FilesOf(b)
  {
    if b == [] {
      assert a + b == a;
    } else {
      assert (a + b)[..|a + b| - 1] == a + b[..|b| - 1];
      FilesOfInOrder(a, b[..|b| - 1]);
    }
  }

  /** Files keep the order of the patterns, and within a pattern that of its paths. */
  lemma {:induction false} FilesInOrder(a: seq<ProcessedPattern>, b: seq<ProcessedPattern>)
    ensures Files(a + b) == Files(a) + Files(b)
  {
    if b == [] {
      assert a + b == a;
    } else {
      var init, last := b[..|b| - 1], b[|b| - 1];
      assert (a + b)[..|a + b| - 1] == a + init;
      FilesInOrder(a, init);
      assert Files(a) + (Files(init) + FilesOf(last.paths)) == Files(a) + Files(init) + FilesOf(last.paths);
    }
  }

  /** Exactly the paths that are no folders are uploadable, with their relative paths and sizes. */
  lemma {:induction false} FilesExactly(patterns: seq<ProcessedPattern>, f: FileInfo)
    ensures f in Files(patterns) <==> IsUploadable(patterns, f)
  {
    if patterns != [] {
      var init, last := patterns[..|patterns| - 1], patterns[|patterns| - 1];
      assert patterns == init + [last];
      FilesExactly(init, f);
      FilesOfExactly(last.paths, f);
    }
  }

  method UploadableFiles(patterns: seq<ProcessedPattern>) returns (result: seq<FileInfo>)
    ensures result == Files(patterns)
    ensures forall f :: f in result <==> IsUploadable(patterns, f)
  {
    result := [];
    for i := 0 to |patterns|
      invariant result == Files(patterns[..i])
    {
      assert patterns[..i + 1][..i] == patterns[..i];
      var paths := patterns[i].paths;
      for j := 0 to |paths|
        invariant result == Files(patterns[..i]) + FilesOf(paths[..j])
      {
        assert paths[..j + 1][..j] == paths[..j];
        if !paths[j].isDir {
          result := result + [FileInfo(paths[j].relativePath, paths[j].size)];
        }
      }
      assert paths[..|paths|] == paths;
    }
    assert patterns[..|patterns|] == patterns;
    forall f ensures f in Files(patterns) <==> IsUploadable(patterns, f) {
      FilesExactly(patterns, f);
    }
  }

  lemma {:induction false} FilesOfPrefix(paths: seq<ProcessedPath>, j: nat)
    requires j <= |paths|
    ensures FilesOf(paths[..j]) <= FilesOf(paths)
  {
    if j == |paths| {
      assert paths[..j] == paths;
    } else {
      assert paths[..|paths| - 1][..j] == paths[..j];
      FilesOfPrefix(paths[..|paths| - 1], j);
    }
  }

  /** The files met before path j of pattern i are a prefix of all files. */
  lemma {:induction false} FilesPrefix(patterns: seq<ProcessedPattern>, i: nat, j: nat)
    requires i < |patterns| && j <= |patterns[i].paths|
    ensures Files(patterns[..i]) + FilesOf(patterns[i].paths[..j]) <= Files(patterns)
  {
    var init := patterns[..|patterns| - 1];
    if i == |init| {
      FilesOfPrefix(patterns[i].paths, j);
    } else {
      assert init[..i] == patterns[..i] && init[i] == patterns[i];
      FilesPrefix(init, i, j);
    }
  }

  // ---------- chunks of URL requests ----------

  const CHUNK_SIZE: nat := 100

  /** lo.Chunk: consecutive pieces of CHUNK_SIZE, the last one possibly shorter. */
  function Chunks(files: seq<FileInfo>): seq<seq<FileInfo>> {
    if files == [] then []
    else if |files| <= CHUNK_SIZE then [files]
    else [files[..CHUNK_SIZE]] + Chunks(files[CHUNK_SIZE..])
  }

  /** The URL requests cover the files exactly once, in order, at most a hundred at a time. */
  lemma {:induction false} ChunksPartition(files: seq<FileInfo>)
    ensures Concat(Chunks(files)) == files
    ensures forall i :: 0 <= i < |Chunks(files)| ==> 0 < |Chunks(files)[i]| <= 100
    ensures forall i :: 0 <= i < |Chunks(files)| - 1 ==> |Chunks(files)[i]| == 100
  {
    if |files| > CHUNK_SIZE {
      ChunksPartition(files[CHUNK_SIZE..]);
      var rest := Chunks(files[CHUNK_SIZE..]);
      assert ([files[..CHUNK_SIZE]] + rest)[1..] == rest;
    } else if files != [] {
      assert [files][1..] == [];
    }
  }

  // ---------- what is sent to the server ----------

  datatype Event =
    | URLRequest(files: seq<FileInfo>)
    | Put(file: FileInfo)
    | Commit(files: seq<FileInfo>)

  function Requests(chunks: seq<seq<FileInfo>>): (events: seq<Event>)
    ensures |events| == |chunks| && forall i :: 0 <= i < |chunks| ==> events[i] == URLRequest(chunks[i])
  {
    seq(|chunks|, i requires 0 <= i < |chunks| => URLRequest(chunks[i]))
  }

  function Puts(files: seq<FileInfo>): (events: seq<Event>)
    ensures |events| == |files| && forall i :: 0 <= i < |files| ==> events[i] == Put(files[i])
  {
    seq(|files|, i requires 0 <= i < |files| => Put(files[i]))
  }

  /** How far an attempt got. */
  datatype Progress = Progress(requests: nat, puts: nat, committed: bool) {
    /** Files are put only after all URL requests, and committed only after all files. */
    predicate Valid(files: seq<FileInfo>) {
      && requests <= |Chunks(files)| && puts <= |files|
      && (puts > 0 || committed ==> requests == |Chunks(files)|)
      && (committed ==> puts == |files|)
    }

    /** The events of an attempt that got this far. */
    function Events(files: seq<FileInfo>): seq<Event>
      requires Valid(files)
    {
      Requests(Chunks(files)[..requests]) + Puts(files[..puts]) + if committed then [Commit(files)] else []
    }
  }

  /** Whatever an attempt got to, a commit it sends lists exactly the uploadable files. */
  lemma CommitsAreExact(p: Progress, files: seq<FileInfo>, e: Event)
    requires p.Valid(files) && e in p.Events(files) && e.Commit?
    ensures e.files == files && p.committed
  {
    var requests, puts := Requests(Chunks(files)[..p.requests]), Puts(files[..p.puts]);
    assert forall x :: x in requests ==> x.URLRequest?;
    assert forall x :: x in puts ==> x.Put?;
  }

  /** A URL that was generated for a path. */
  datatype Grant = Grant(path: string, url: string)

  function Grants(files: seq<FileInfo>, urls: seq<string>): set<Grant> {
    set i | 0 <= i < |files| && i < |urls| :: Grant(files[i].path, urls[i])
  }

  /** The server side: a log of requests and the URLs given out, with every answer left open. */
  class Server {
    var log: seq<Event>
    ghost var granted: set<Grant>

    constructor ()
      ensures log == [] && granted == {}
    {
      log, granted := [], {};
    }

    method GenerateArtifactUploadURLs(files: seq<FileInfo>) returns (urls: Option<seq<string>>)
      modifies this
      ensures log == old(log) + [URLRequest(files)]
      ensures granted == old(granted) + if urls.Some? then Grants(files, urls.value) else {}
    {
      log := log + [URLRequest(files)];
      urls := *;
      if urls.Some? {
        granted := granted + Grants(files, urls.value);
      }
    }

    /** A file goes to a URL that was generated for its own path. */
    method HttpPut(file: FileInfo, url: string) returns (ok: bool)
      requires Grant(file.path, url) in granted
      modifies this`log
      ensures log == old(log) + [Put(file)]
    {
      log := log + [Put(file)];
      ok := *;
    }

    method CommitUploadedArtifacts(files: seq<FileInfo>) returns (ok: bool)
      modifies this`log
      ensures log == old(log) + [Commit(files)]
    {
      log := log + [Commit(files)];
      ok := *;
    }
  }

  class HTTPSUploader {
    const server: Server
    var uploadDescriptors: map<string, string>
    var uploadedFiles: seq<FileInfo>

    constructor (server: Server, uploadDescriptors: map<string, string>)
      ensures this.server == server && this.uploadDescriptors == uploadDescriptors && uploadedFiles == []
    {
      this.server := server;
      this.uploadDescriptors, uploadedFiles := uploadDescriptors, [];
    }

    /** Every URL in the table was generated for the path it is filed under. */
    ghost predicate Granted()
      reads this, server
    {
      AllGranted(uploadDescriptors, server.granted)
    }

    /** Puts one file, unless the request cannot even be built, and remembers it if the server took it. */
    method Upload(relativeArtifactPath: string, size: nat) returns (failure: Option<Failure>, ghost sent: bool)
      requires Granted()
      modifies this`uploadedFiles, server`log
      ensures Granted()
      ensures failure == Some(NoUploadURL) <==> relativeArtifactPath !in uploadDescriptors
      ensures failure.Some? ==> failure.value.NoUploadURL? || failure.value.UploadFailed?
      ensures server.log == old(server.log) + if sent then [Put(FileInfo(relativeArtifactPath, size))] else []
      ensures failure.None? ==> sent
      ensures uploadedFiles == old(uploadedFiles) +
        if failure.None? then [FileInfo(relativeArtifactPath, size)] else []
    {
      sent := false;
      if relativeArtifactPath !in uploadDescriptors {
        return Some(NoUploadURL), false;
      }
      var wellFormed: bool := *;
      if !wellFormed {
        return Some(UploadFailed), false;
      }
      var ok := server.HttpPut(FileInfo(relativeArtifactPath, size), uploadDescriptors[relativeArtifactPath]);
      sent := true;
      if !ok {
        return Some(UploadFailed), true;
      }
      uploadedFiles := uploadedFiles + [FileInfo(relativeArtifactPath, size)];
      failure := None;
    }

    method Finish() returns (failure: Option<Failure>)
      modifies server`log
      ensures server.log == old(server.log) + [Commit(uploadedFiles)]
      ensures failure.Some? ==> failure.value.RPCFailed?
    {
      var ok := server.CommitUploadedArtifacts(uploadedFiles);
      var retryable: bool := *;
      failure := if ok then None else Some(RPCFailed(retryable));
    }
  }

  // ---------- one attempt ----------

  ghost predicate AllGranted(descriptors: map<string, string>, granted: set<Grant>) {
    forall path :: path in descriptors ==> Grant(path, descriptors[path]) in granted
  }

  /** Records the URL of every file of one request. */
  method AddDescriptors(
    descriptors: map<string, string>, files: seq<FileInfo>, urls: seq<string>, ghost granted: set<Grant>)
    returns (result: map<string, string>)
    requires |files| == |urls| && AllGranted(descriptors, granted) && Grants(files, urls) <= granted
    ensures forall path :: path in result <==> path in descriptors || exists f :: f in files && f.path == path
    ensures AllGranted(result, granted)
  {
    result := descriptors;
    for i := 0 to |files|
      invariant forall path :: path in result <==> path in descriptors || exists f :: f in files[..i] && f.path == path
      invariant AllGranted(result, granted)
    {
      assert files[..i + 1] == files[..i] + [files[i]];
      assert Grant(files[i].path, urls[i]) in Grants(files, urls);
      result := result[files[i].path := urls[i]];
    }
    assert files[..|files|] == files;
  }

  lemma ConcatPrefix(parts: seq<seq<FileInfo>>, k: nat)
    requires k < |parts|
    ensures Concat(parts[..k + 1]) == Concat(parts[..k]) + parts[k]
  {
    assert parts[..k + 1] == parts[..k] + [parts[k]];
    ConcatAppend(parts[..k], [parts[k]]);
    assert Concat([parts[k]]) == parts[k];
  }

  ghost predicate Covers(descriptors: map<string, string>, files: seq<FileInfo>) {
    forall f :: f in files ==> f.path in descriptors
  }

  /** Requests URLs for one chunk of files and records them. */
  method RequestURLs(server: Server, descriptors: map<string, string>, chunk: seq<FileInfo>)
    returns (failure: Option<Failure>, result: map<string, string>)
    requires AllGranted(descriptors, server.granted)
    modifies server
    ensures server.log == old(server.log) + [URLRequest(chunk)]
    ensures failure.Some? ==> failure.value.RPCFailed? || failure.value.InvalidData?
    ensures failure.None? ==>
      && AllGranted(result, server.granted) && Covers(result, chunk)
      && forall path :: path in descriptors ==> path in result
  {
    result := descriptors;
    var urls := server.GenerateArtifactUploadURLs(chunk);
    if urls.None? {
      var retryable: bool := *;
      return Some(RPCFailed(retryable)), result;
    }
    if |chunk| != |urls.value| {
      return Some(InvalidData), result;
    }
    result := AddDescriptors(descriptors, chunk, urls.value, server.granted);
    failure := None;
  }

  /** Requests URLs chunk by chunk; an uploader comes back only when every file has one. */
  method NewHTTPSUploader(server: Server, patterns: seq<ProcessedPattern>)
    returns (uploader: HTTPSUploader?, failure: Option<Failure>, ghost requests: nat)
    modifies server
    ensures requests <= |Chunks(Files(patterns))|
    ensures server.log == old(server.log) + Requests(Chunks(Files(patterns))[..requests])
    ensures failure.Some? <==> uploader == null
    ensures failure.Some? ==> failure.value.RPCFailed? || failure.value.InvalidData?
    ensures uploader != null ==>
      && fresh(uploader) && uploader.server == server && uploader.uploadedFiles == [] && uploader.Granted()
      && Covers(uploader.uploadDescriptors, Files(patterns)) && requests == |Chunks(Files(patterns))|
  {
    uploader, failure := null, None;
    var files := UploadableFiles(patterns);
    var chunks := Chunks(files);
    var descriptors := map[];
    var k := 0;
    while k < |chunks|
      invariant failure.None? && k <= |chunks| && Covers(descriptors, Concat(chunks[..k]))
      invariant server.log == old(server.log) + Requests(chunks[..k])
      invariant AllGranted(descriptors, server.granted)
    {
      ConcatPrefix(chunks, k);
      assert Requests(chunks[..k + 1]) == Requests(chunks[..k]) + [URLRequest(chunks[k])];
      failure, descriptors := RequestURLs(server, descriptors, chunks[k]);
      k := k + 1;
      if failure.Some? {
        return null, failure, k;
      }
    }
    ChunksPartition(files);
    assert chunks[..k] == chunks;
    uploader := new HTTPSUploader(server, descriptors);
    requests := k;
  }

  /** Since `log0`, the first n files have been put, in order. */
  ghost predicate PutSince(log0: seq<Event>, log: seq<Event>, files: seq<FileInfo>, n: nat) {
    n <= |files| && log == log0 + Puts(files[..n])
  }

  lemma PutNext(log0: seq<Event>, log: seq<Event>, files: seq<FileInfo>, n: nat)
    requires PutSince(log0, log, files, n) && n < |files|
    ensures PutSince(log0, log + [Put(files[n])], files, n + 1)
    ensures files[..n + 1] == files[..n] + [files[n]]
  {
    assert Puts(files[..n + 1]) == Puts(files[..n]) + [Put(files[n])];
  }

  /** Where path j stands among the files. */
  lemma FileAt(paths: seq<ProcessedPath>, j: nat)
    requires j < |paths|
    ensures
      var n := |FilesOf(paths[..j])|;
      if paths[j].isDir then |FilesOf(paths[..j + 1])| == n
      else
        && |FilesOf(paths[..j + 1])| == n + 1 <= |FilesOf(paths)|
        && FilesOf(paths)[n] == FileInfo(paths[j].relativePath, paths[j].size)
        && FilesOf(paths)[n] in FilesOf(paths)
  {
    assert paths[..j + 1][..j] == paths[..j];
    FilesOfPrefix(paths, j + 1);
    if !paths[j].isDir {
      var n, upTo := |FilesOf(paths[..j])|, FilesOf(paths[..j + 1]);
      assert upTo[n] == FileInfo(paths[j].relativePath, paths[j].size);
      assert FilesOf(paths)[n] == upTo[n];
    }
  }

  /** Uploads the files of one pattern. */
  method UploadPaths(paths: seq<ProcessedPath>, uploader: HTTPSUploader)
    returns (failure: Option<Failure>, ghost puts: nat)
    requires Covers(uploader.uploadDescriptors, FilesOf(paths)) && uploader.Granted()
    modifies uploader`uploadedFiles, uploader.server`log
    ensures failure.Some? ==> failure.value.OpenFailed? || failure.value.UploadFailed?
    ensures PutSince(old(uploader.server.log), uploader.server.log, FilesOf(paths), puts)
    ensures failure.None? ==>
      puts == |FilesOf(paths)| && uploader.uploadedFiles == old(uploader.uploadedFiles) + FilesOf(paths)
  {
    ghost var files := FilesOf(paths);
    puts := 0;
    for j := 0 to |paths|
      invariant puts == |FilesOf(paths[..j])| <= |files|
      invariant PutSince(old(uploader.server.log), uploader.server.log, files, puts)
      invariant uploader.uploadedFiles == old(uploader.uploadedFiles) + files[..puts]
    {
      FileAt(paths, j);
      if paths[j].isDir {
        continue;
      }
      var readable: bool := *;
      if !readable {
        failure := Some(OpenFailed);
        return;
      }
      PutNext(old(uploader.server.log), uploader.server.log, files, puts);
      ghost var sent;
      failure, sent := uploader.Upload(paths[j].relativePath, paths[j].size);
      puts := if sent then puts + 1 else puts;
      if failure.Some? {
        return;
      }
    }
    assert paths[..|paths|] == paths && files[..|files|] == files;
    failure := None;
  }

  /** The first `puts` files of pattern i, put after all files of earlier patterns. */
  lemma PutsGrow(
    log0: seq<Event>, log1: seq<Event>, log2: seq<Event>, patterns: seq<ProcessedPattern>, i: nat, puts: nat)
    requires i < |patterns|
    requires PutSince(log0, log1, Files(patterns), |Files(patterns[..i])|)
    requires PutSince(log1, log2, FilesOf(patterns[i].paths), puts)
    ensures PutSince(log0, log2, Files(patterns), |Files(patterns[..i])| + puts)
  {
    var done, more := Files(patterns[..i]), FilesOf(patterns[i].paths)[..puts];
    PatternPrefix(patterns, i, 0);
    PatternPrefix(patterns, i, puts);
    assert Files(patterns)[..|done|] == done;
    PutsConcat(log0, done, more);
  }

  lemma PutsConcat(log: seq<Event>, a: seq<FileInfo>, b: seq<FileInfo>)
    ensures log + Puts(a) + Puts(b) == log + Puts(a + b)
  {
    assert Puts(a + b) == Puts(a) + Puts(b);
  }

  /** The files before pattern i and the first `puts` of pattern i are a prefix of all files. */
  lemma PatternPrefix(patterns: seq<ProcessedPattern>, i: nat, puts: nat)
    requires i < |patterns| && puts <= |FilesOf(patterns[i].paths)|
    ensures
      var n := |Files(patterns[..i])| + puts;
      && n <= |Files(patterns)|
      && Files(patterns)[..n] == Files(patterns[..i]) + FilesOf(patterns[i].paths)[..puts]
    ensures forall f :: f in FilesOf(patterns[i].paths) ==> f in Files(patterns)
  {
    var paths := patterns[i].paths;
    FilesPrefix(patterns, i, |paths|);
    assert paths[..|paths|] == paths;
    var both := Files(patterns[..i]) + FilesOf(paths);
    assert forall k :: 0 <= k < |both| ==> Files(patterns)[k] == both[k];
    forall f | f in FilesOf(paths) ensures f in Files(patterns) {
      assert f in both;
    }
  }

  lemma AfterPattern(patterns: seq<ProcessedPattern>, i: nat)
    requires i < |patterns|
    ensures Files(patterns[..i + 1]) == Files(patterns[..i]) + FilesOf(patterns[i].paths)
    ensures forall f :: f in FilesOf(patterns[i].paths) ==> f in Files(patterns)
  {
    assert patterns[..i + 1][..i] == patterns[..i];
    PatternPrefix(patterns, i, |FilesOf(patterns[i].paths)|);
  }

  /** Uploads every file; with a URL for each of them, the "no upload URL" error cannot occur. */
  method UploadArtifacts(patterns: seq<ProcessedPattern>, uploader: HTTPSUploader)
    returns (failure: Option<Failure>, ghost puts: nat)
    requires uploader.uploadedFiles == [] && Covers(uploader.uploadDescriptors, Files(patterns)) && uploader.Granted()
    modifies uploader`uploadedFiles, uploader.server`log
    ensures failure.Some? ==> failure.value.OpenFailed? || failure.value.UploadFailed?
    ensures PutSince(old(uploader.server.log), uploader.server.log, Files(patterns), puts)
    ensures failure.None? ==> puts == |Files(patterns)| && uploader.uploadedFiles == Files(patterns)
  {
    puts := 0;
    for i := 0 to |patterns|
      invariant puts == |Files(patterns[..i])| && uploader.uploadedFiles == Files(patterns[..i])
      invariant PutSince(old(uploader.server.log), uploader.server.log, Files(patterns), puts)
    {
      AfterPattern(patterns, i);
      ghost var log, more := uploader.server.log, 0;
      failure, more := UploadPaths(patterns[i].paths, uploader);
      PutsGrow(old(uploader.server.log), log, uploader.server.log, patterns, i, more);
      puts := puts + more;
      if failure.Some? {
        return;
      }
    }
    assert patterns[..|patterns|] == patterns;
    failure := None;
  }

  /** One attempt: its events are those of some valid progress, and success means a commit of all files. */
  method Attempt(server: Server, patterns: seq<ProcessedPattern>) returns (failure: Option<Failure>, ghost p: Progress)
    modifies server
    ensures p.Valid(Files(patterns)) && server.log == old(server.log) + p.Events(Files(patterns))
    ensures failure.None? ==> p.committed
    ensures failure != Some(NoUploadURL) && failure != Some(Cancelled)
  {
    ghost var files := Files(patterns);
    var uploader;
    ghost var requests;
    uploader, failure, requests := NewHTTPSUploader(server, patterns);
    p := Progress(requests, 0, false);
    OnlyRequests(old(server.log), files, requests);
    if failure.Some? {
      return;
    }
    ghost var requested, puts := server.log, 0;
    failure, puts := UploadArtifacts(patterns, uploader);
    p := Progress(requests, puts, false);
    ThenPuts(old(server.log), requested, server.log, files, requests, puts);
    if failure.Some? {
      return;
    }
    assert files[..puts] == files;
    ghost var put := server.log;
    failure := uploader.Finish();
    ThenCommit(old(server.log), put, files, p);
    p := Progress(requests, puts, true);
  }

  lemma OnlyRequests(log: seq<Event>, files: seq<FileInfo>, requests: nat)
    requires requests <= |Chunks(files)|
    ensures log + Requests(Chunks(files)[..requests]) == log + Progress(requests, 0, false).Events(files)
  {
    assert Puts(files[..0]) == [];
  }

  lemma ThenPuts(
    log0: seq<Event>, log1: seq<Event>, log2: seq<Event>, files: seq<FileInfo>, requests: nat, puts: nat)
    requires requests == |Chunks(files)| && log1 == log0 + Requests(Chunks(files)[..requests])
    requires PutSince(log1, log2, files, puts)
    ensures log2 == log0 + Progress(requests, puts, false).Events(files)
  {
  }

  lemma ThenCommit(log0: seq<Event>, log: seq<Event>, files: seq<FileInfo>, p: Progress)
    requires p.Valid(files) && !p.committed && p.requests == |Chunks(files)| && p.puts == |files|
    requires log == log0 + p.Events(files)
    ensures log + [Commit(files)] == log0 + p.(committed := true).Events(files)
  {
  }

  ghost predicate CommitsExactly(events: seq<Event>, files: seq<FileInfo>) {
    forall e :: e in events && e.Commit? ==> e.files == files
  }

  predicate Retryable(failure: Failure) {
    failure.RPCFailed? ==> failure.retryable
  }

  /** When the context is cancelled, if at all. */
  datatype Cancellation = Never | BeforeStart | BetweenAttempts

  function AllEvents(attempts: seq<Progress>, files: seq<FileInfo>): seq<Event>
    requires forall i :: 0 <= i < |attempts| ==> attempts[i].Valid(files)
  {
    if attempts == [] then [] else attempts[0].Events(files) + AllEvents(attempts[1..], files)
  }

  /**
   At most two attempts, none if the context is cancelled beforehand, the second only after a
   retryable failure and if the context was not cancelled meanwhile. Whatever fails, every commit
   sent lists exactly the uploadable files, and success means that one was sent.
   */
  method UploadArtifactsWithRetries(server: Server, patterns: seq<ProcessedPattern>, cancellation: Cancellation)
    returns (failure: Option<Failure>, ghost attempts: seq<Progress>, ghost first: Option<Failure>)
    modifies server
    ensures |attempts| <= 2 && (|attempts| == 0 <==> cancellation == BeforeStart)
    ensures forall i :: 0 <= i < |attempts| ==> attempts[i].Valid(Files(patterns))
    ensures server.log == old(server.log) + AllEvents(attempts, Files(patterns))
    ensures CommitsExactly(server.log[|old(server.log)|..], Files(patterns))
    ensures failure.None? ==> attempts != [] && attempts[|attempts| - 1].committed
    ensures |attempts| == 2 <==> first.Some? && first != Some(RPCFailed(false)) && cancellation == Never
    ensures |attempts| == 1 ==> failure == first || (failure == Some(Cancelled) && first.Some?)
    ensures failure.Some? && failure != Some(RPCFailed(false)) && cancellation == Never ==> |attempts| == 2
    ensures failure == Some(Cancelled) ==> cancellation != Never && |attempts| <= 1
    ensures failure != Some(NoUploadURL)
  {
    ghost var files := Files(patterns);
    attempts, first := [], None;
    if cancellation == BeforeStart {
      return Some(Cancelled), attempts, first;
    }
    ghost var p, q;
    failure, p := Attempt(server, patterns);
    first := failure;
    attempts := [p];
    OneAttempt(p, files);
    if failure.Some? && Retryable(failure.value) {
      if cancellation == BetweenAttempts {
        failure := Some(Cancelled);
      } else {
        failure, q := Attempt(server, patterns);
        attempts := [p, q];
        TwoAttempts(old(server.log), p, q, files);
      }
    }
    Suffix(old(server.log), AllEvents(attempts, files));
  }

  lemma Suffix(log: seq<Event>, events: seq<Event>)
    ensures (log + events)[|log|..] == events
  {
  }

  lemma OneAttempt(p: Progress, files: seq<FileInfo>)
    requires p.Valid(files)
    ensures AllEvents([p], files) == p.Events(files) && CommitsExactly(p.Events(files), files)
  {
    assert AllEvents([p], files) == p.Events(files) + [];
    AttemptCommits(p, files);
  }

  lemma TwoAttempts(log: seq<Event>, p: Progress, q: Progress, files: seq<FileInfo>)
    requires p.Valid(files) && q.Valid(files)
    ensures log + p.Events(files) + q.Events(files) == log + AllEvents([p, q], files)
    ensures CommitsExactly(AllEvents([p, q], files), files)
  {
    assert [p, q][1..] == [q] && [q][1..] == [];
    assert AllEvents([q], files) == q.Events(files) + [];
    assert AllEvents([p, q], files) == p.Events(files) + q.Events(files);
    AttemptCommits(p, files);
    AttemptCommits(q, files);
  }

  lemma AttemptCommits(p: Progress, files: seq<FileInfo>)
    requires p.Valid(files)
    ensures CommitsExactly(p.Events(files), files)
  {
    forall e | e in p.Events(files) && e.Commit? ensures e.files == files {
      CommitsAreExact(p, files, e);
    }
  }
}
