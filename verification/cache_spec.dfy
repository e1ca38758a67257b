/** The synthesis cache as a function of the filesystem state: one request
    renders the payload, derives the entry's paths, ensures the directory,
    rewrites the audit copy, fetches the canonical artifact on a miss and
    then runs the converter with its own cache check. The methods of
    `Service.SynthesisService` are proved to perform exactly these steps. */
module CacheSpec {
  import opened Encoding
  import opened CacheKey

  datatype Option<T> = None | Some(value: T)

  /** The provider's response body is read 1024 bytes at a time. */
  const ChunkSize: nat := 1024
  type Chunk = c: seq<byte> | |c| <= ChunkSize

  /** What the converter writes when it reports success: never empty. */
  type Audio = b: seq<byte> | |b| > 0 witness [0]

  /** The converter's output parameters besides the file type and rate. */
  const Bits: nat := 16
  const Channels: nat := 1

  datatype OutputFormat = OutputFormat(fileType: string, rate: string, bits: nat, channels: nat)

  /** The filesystem: regular files with their contents, and directories. */
  datatype FsState = FsState(files: map<string, seq<byte>>, dirs: set<string>)

  /** `os.path.exists`: a file or a directory stands at the path; a file
      exists whatever its size, so an empty file exists. */
  predicate Exists(fs: FsState, path: string)
    ensures path in fs.files ==> Exists(fs, path)
    ensures path in fs.dirs ==> Exists(fs, path)
  {
    path in fs.files || path in fs.dirs
  }

  /** The cache-validity test: the file exists and its size is positive. An
      empty file, a directory or nothing at the path all count as a miss. */
  predicate HasContent(fs: FsState, path: string)
    ensures HasContent(fs, path) ==> Exists(fs, path)
    ensures path in fs.files && fs.files[path] == [] ==> !HasContent(fs, path)
    ensures path !in fs.files ==> !HasContent(fs, path)
  {
    path in fs.files && |fs.files[path]| > 0
  }

  /** The `result` field of the response. */
  datatype Outcome = Cached | Success | Error | AzureError {
    function Name(): string {
      match this
      case Cached => "cached"
      case Success => "success"
      case Error => "error"
      case AzureError => "azure_error"
    }
  }

  datatype Request = Request(text: string, voice: string, exten: string, fileType: string, rate: string)

  datatype Response = Response(soundPath: string, exten: string, result: Outcome)

  /** The two collaborators the service calls as black boxes: the MD5 digest
      and the sox pipeline (which reads the canonical artifact and either
      produces audio in the requested format or fails). */
  datatype Env = Env(md5: seq<byte> -> Digest, sox: (seq<byte>, OutputFormat) -> Option<Audio>)

  function KeyOf(env: Env, req: Request): Digest {
    Key(env.md5, req.text, req.voice)
  }

  function AuditPath(env: Env, req: Request): string {
    WithExtension(FilePath(req.voice, KeyOf(env, req)), AuditFormat)
  }

  function CanonicalPath(env: Env, req: Request): string {
    WithExtension(FilePath(req.voice, KeyOf(env, req)), CacheFormat)
  }

  function DerivedPath(env: Env, req: Request): string {
    WithExtension(FilePath(req.voice, KeyOf(env, req)), req.exten)
  }

  // ---------------------------------------------------------------------------
  // Reading the response stream

  /** The bytes written while reading the stream: the chunks up to, not
      including, the first empty one (the end of the stream reads as empty). */
  function Received(stream: seq<Chunk>): (body: seq<byte>)
    ensures |body| <= ChunkSize * |stream|
    ensures body == [] <==> stream == [] || stream[0] == []
  {
    if stream == [] || stream[0] == [] then [] else stream[0] + Received(stream[1..])
  }

  function Flatten(chunks: seq<seq<byte>>): seq<byte> {
    if chunks == [] then [] else chunks[0] + Flatten(chunks[1..])
  }

  /** The file holds exactly the concatenation of the chunks read before the
      first empty chunk; nothing after it is read. */
  lemma {:induction false} ReceivedIsChunksBeforeFirstEmpty(stream: seq<Chunk>, n: nat)
    requires n <= |stream|
    requires forall k | 0 <= k < n :: stream[k] != []
    requires n == |stream| || stream[n] == []
    ensures Received(stream) == Flatten(stream[..n])
  {
    if n == 0 {
      assert stream == [] || stream[0] == [];
    } else {
      ReceivedIsChunksBeforeFirstEmpty(stream[1..], n - 1);
      assert stream[..n][1..] == stream[1..][..n - 1];
    }
  }

  // ---------------------------------------------------------------------------
  // ensure_dir

  /** The directories `os.makedirs` creates for `d`: `d` and every proper
      prefix of it that ends just before a separator. */
  function Ancestors(d: string): (r: set<string>)
    ensures d != [] ==> d in r
    ensures forall a | a in r :: a != [] && a <= d
  {
    assert d[..|d|] == d;
    set i | 0 < i <= |d| && (i == |d| || d[i] == '/') :: d[..i]
  }

  /** Creates the directory and its missing parents, unless something already exists at `d`. */
  function EnsureDirSpec(fs: FsState, d: string): (r: FsState)
    ensures r.files == fs.files
    ensures fs.dirs <= r.dirs
    ensures d != [] ==> Exists(r, d)
    ensures Exists(fs, d) ==> r == fs
    ensures r.dirs <= fs.dirs + Ancestors(d)
  {
    if Exists(fs, d) then fs else fs.(dirs := fs.dirs + Ancestors(d))
  }

  /** Ensuring a directory twice leaves the same state as ensuring it once. */
  lemma EnsureDirIdempotent(fs: FsState, d: string)
    ensures EnsureDirSpec(EnsureDirSpec(fs, d), d) == EnsureDirSpec(fs, d)
  {
  }

  // ---------------------------------------------------------------------------
  // sox_converter

  /** The converter's effect: `built` says whether the sox pipeline ran. */
  datatype Conversion = Conversion(fs: FsState, result: Outcome, built: bool)

  /** `sox_converter` never answers "azure_error" and writes at most its own
      output file: directories and every other file are left as they were,
      and the output holds content afterwards unless sox failed. */
  ghost function Convert(fs: FsState, filePath: string, exten: string, fileType: string, rate: string,
                         sox: (seq<byte>, OutputFormat) -> Option<Audio>): (c: Conversion)
    requires WithExtension(filePath, CacheFormat) in fs.files
    ensures c.result != AzureError
    ensures c.result != Success ==> c.fs == fs
    ensures c.fs.dirs == fs.dirs
    ensures c.fs.files.Keys <= fs.files.Keys + {WithExtension(filePath, exten)}
    ensures forall p | p in fs.files && p != WithExtension(filePath, exten) :: p in c.fs.files && c.fs.files[p] == fs.files[p]
    ensures HasContent(c.fs, WithExtension(filePath, exten)) <==> c.result != Error
  {
    var output := WithExtension(filePath, exten);
    if HasContent(fs, output) then Conversion(fs, Cached, false)
    else
      match sox(fs.files[WithExtension(filePath, CacheFormat)], OutputFormat(fileType, rate, Bits, Channels))
      case Some(audio) => Conversion(fs.(files := fs.files[output := audio]), Success, true)
      case None => Conversion(fs, Error, true)
  }

  /** The converter's cache check: "cached", with nothing run and nothing
      written, exactly when the output exists non-empty; otherwise sox runs on
      the canonical artifact and the result is "success" (the output then holds
      what sox produced) or "error" (nothing written) as sox reports. */
  lemma ConvertDecision(fs: FsState, filePath: string, exten: string, fileType: string, rate: string,
                        sox: (seq<byte>, OutputFormat) -> Option<Audio>)
    requires WithExtension(filePath, CacheFormat) in fs.files
    ensures var c := Convert(fs, filePath, exten, fileType, rate, sox);
      var output := WithExtension(filePath, exten);
      var built := sox(fs.files[WithExtension(filePath, CacheFormat)], OutputFormat(fileType, rate, Bits, Channels));
      && (c.result == Cached <==> HasContent(fs, output))
      && (c.built <==> c.result != Cached)
      && (c.result == Success <==> !HasContent(fs, output) && built.Some?)
      && (c.result == Error <==> !HasContent(fs, output) && built.None?)
      && (c.result == Success ==> c.fs == fs.(files := fs.files[output := built.value]))
      && (c.result != Success ==> c.fs == fs)
      && HasContent(c.fs, output) == (c.result != Error)
  {
  }

  // ---------------------------------------------------------------------------
  // synthesize

  /** The effect of one request: the new state, the response, whether the
      provider was called and whether the converter ran. */
  datatype Synthesis = Synthesis(fs: FsState, response: Response, fetched: bool, built: bool)

  ghost function SynthesizeSpec(fs: FsState, req: Request, env: Env, stream: seq<Chunk>): (o: Synthesis)
    ensures o.response.result == AzureError <==> !HasContent(o.fs, CanonicalPath(env, req))
    ensures o.built ==> !o.fetched || (stream != [] && stream[0] != [])
    ensures fs.files.Keys <= o.fs.files.Keys && fs.dirs <= o.fs.dirs
  {
    var data := Ssml(req.text, req.voice);
    var h := env.md5(Encode(data));
    var filePath := FilePath(req.voice, h);
    var fs1 := EnsureDirSpec(fs, FileDir(req.voice, h));
    var fs2 := fs1.(files := fs1.files[WithExtension(filePath, AuditFormat) := Encode(data)]);
    var canonical := WithExtension(filePath, CacheFormat);
    var fetch := !HasContent(fs2, canonical);
    var fs3 := if fetch then fs2.(files := fs2.files[canonical := Received(stream)]) else fs2;
    if !HasContent(fs3, canonical) then
      Synthesis(fs3, Response(SoundPath(req.voice, h), req.exten, AzureError), fetch, false)
    else
      var c := Convert(fs3, filePath, req.exten, req.fileType, req.rate, env.sox);
      Synthesis(c.fs, Response(SoundPath(req.voice, h), req.exten, c.result), fetch, c.built)
  }

  /** The state right after the audit copy is written, before the cache check. */
  ghost function AfterAudit(fs: FsState, req: Request, env: Env): FsState {
    var fs1 := EnsureDirSpec(fs, FileDir(req.voice, KeyOf(env, req)));
    fs1.(files := fs1.files[AuditPath(env, req) := Encode(Ssml(req.text, req.voice))])
  }

  /** The audit copy and the canonical artifact are different files, and the
      audit copy is never empty. */
  lemma AuditIsNotCanonical(env: Env, req: Request)
    ensures AuditPath(env, req) != CanonicalPath(env, req)
    ensures |Encode(Ssml(req.text, req.voice))| > 0
  {
  }

  /** The response: the returned path is the sharded path of the key, which
      depends on the text and the voice only (never on the extension, file
      type, rate, filesystem or provider); the extension is echoed. */
  lemma ResponseShape(fs: FsState, req: Request, env: Env, stream: seq<Chunk>)
    ensures var o := SynthesizeSpec(fs, req, env, stream);
      && o.response.soundPath == SoundPath(req.voice, Key(env.md5, req.text, req.voice))
      && o.response.exten == req.exten
  {
  }

  /** The provider is called exactly when the canonical artifact is missing or
      empty; when it is not called the canonical artifact is left as it was,
      and when it is called the artifact holds exactly the streamed body. */
  lemma ProviderCalledOnlyOnMiss(fs: FsState, req: Request, env: Env, stream: seq<Chunk>)
    ensures var o := SynthesizeSpec(fs, req, env, stream);
      && (o.fetched <==> !HasContent(fs, CanonicalPath(env, req)))
      && CanonicalPath(env, req) in o.fs.files
      && (!o.fetched ==> o.fs.files[CanonicalPath(env, req)] == fs.files[CanonicalPath(env, req)])
      && (o.fetched ==> o.fs.files[CanonicalPath(env, req)] == Received(stream))
  {
  }

  /** An empty body (or an empty canonical artifact after the fetch) yields
      "azure_error": the converter never runs and only the audit copy and the
      (empty) canonical artifact are written. */
  lemma ProviderErrorShortCircuits(fs: FsState, req: Request, env: Env, stream: seq<Chunk>)
    ensures var o := SynthesizeSpec(fs, req, env, stream);
      && (o.response.result == AzureError <==> o.fetched && (stream == [] || stream[0] == []))
      && (o.response.result == AzureError ==>
            && !o.built
            && o.fs == AfterAudit(fs, req, env).(files := AfterAudit(fs, req, env).files[CanonicalPath(env, req) := []]))
  {
  }

  /** The audit copy is rewritten with the encoded payload on every request,
      whatever the cache state and whatever the outcome. */
  lemma AuditAlwaysWritten(fs: FsState, req: Request, env: Env, stream: seq<Chunk>)
    ensures var o := SynthesizeSpec(fs, req, env, stream);
      AuditPath(env, req) in o.fs.files && o.fs.files[AuditPath(env, req)] == Encode(Ssml(req.text, req.voice))
  {
  }

  /** The converter runs only when the derived file is missing or empty at
      that point; "cached" means the derived file is there, "success" that it
      holds what sox made of the canonical artifact, "error" that sox failed. */
  lemma ConverterOutcome(fs: FsState, req: Request, env: Env, stream: seq<Chunk>)
    ensures var o := SynthesizeSpec(fs, req, env, stream);
      var canonical := CanonicalPath(env, req);
      var derived := DerivedPath(env, req);
      var format := OutputFormat(req.fileType, req.rate, Bits, Channels);
      && (o.built <==> o.response.result in {Success, Error})
      && (o.response.result == Cached ==> HasContent(o.fs, derived))
      && (HasContent(fs, derived) && o.response.result != AzureError ==> o.response.result == Cached)
      && (o.response.result == Success ==> o.fs.files[derived] == env.sox(o.fs.files[canonical], format).value)
      && (o.response.result == Error ==> env.sox(o.fs.files[canonical], format) == None)
  {
  }

  /** Nothing else changes: only the audit copy, the canonical artifact and the
      derived file may be written, and the only directories created are those
      of the entry. */
  lemma NothingElseChanges(fs: FsState, req: Request, env: Env, stream: seq<Chunk>)
    ensures var o := SynthesizeSpec(fs, req, env, stream);
      && o.fs.dirs == EnsureDirSpec(fs, FileDir(req.voice, KeyOf(env, req))).dirs
      && o.fs.files.Keys <= fs.files.Keys + {AuditPath(env, req), CanonicalPath(env, req), DerivedPath(env, req)}
      && forall p | p in fs.files && p != AuditPath(env, req) && p != CanonicalPath(env, req) && p != DerivedPath(env, req) ::
           p in o.fs.files && o.fs.files[p] == fs.files[p]
  {
  }

  /** A second request with the same text, voice and extension after one that
      ended "success" or "cached" calls neither the provider nor the converter,
      returns "cached" and leaves the filesystem as it was, whatever its file
      type, rate or provider response: the derived file is keyed by the
      extension alone. */
  lemma RepeatedRequestIsCached(fs: FsState, req: Request, req2: Request, env: Env, s1: seq<Chunk>, s2: seq<Chunk>)
    requires req2.text == req.text && req2.voice == req.voice && req2.exten == req.exten
    requires SynthesizeSpec(fs, req, env, s1).response.result in {Success, Cached}
    ensures var o1 := SynthesizeSpec(fs, req, env, s1);
      var o2 := SynthesizeSpec(o1.fs, req2, env, s2);
      && o2.response == o1.response.(result := Cached)
      && !o2.fetched && !o2.built
      && o2.fs == o1.fs
  {
  }

  /** After "error" the same request reuses the canonical artifact without a
      provider call and runs the converter again. */
  lemma RetryAfterConversionError(fs: FsState, req: Request, env: Env, s1: seq<Chunk>, s2: seq<Chunk>)
    requires SynthesizeSpec(fs, req, env, s1).response.result == Error
    ensures var o2 := SynthesizeSpec(SynthesizeSpec(fs, req, env, s1).fs, req, env, s2);
      !o2.fetched && o2.built
  {
  }

  /** After "azure_error" the same request calls the provider again. */
  lemma RetryAfterProviderError(fs: FsState, req: Request, env: Env, s1: seq<Chunk>, s2: seq<Chunk>)
    requires SynthesizeSpec(fs, req, env, s1).response.result == AzureError
    ensures SynthesizeSpec(SynthesizeSpec(fs, req, env, s1).fs, req, env, s2).fetched
  {
  }

  /** The extensions of the entry's own files are answered from them: asking
      for "txt" or "sln24" never runs the converter and yields "cached" unless
      the provider fails. */
  lemma ReservedExtensionsAreCached(fs: FsState, req: Request, env: Env, stream: seq<Chunk>)
    requires req.exten == AuditFormat || req.exten == CacheFormat
    ensures var o := SynthesizeSpec(fs, req, env, stream);
      o.response.result in {Cached, AzureError} && !o.built
  {
  }

  /** The first request for a new key on an empty disk: the provider streams a
      non-empty body and sox succeeds, so both artifacts are written and the
      result is "success". */
  lemma FirstRequestSucceeds(req: Request, env: Env, stream: seq<Chunk>)
    requires req.exten != AuditFormat && req.exten != CacheFormat
    requires stream != [] && stream[0] != []
    requires env.sox(Received(stream), OutputFormat(req.fileType, req.rate, Bits, Channels)).Some?
    ensures var o := SynthesizeSpec(FsState(map[], {}), req, env, stream);
      && o.response == Response(SoundPath(req.voice, KeyOf(env, req)), req.exten, Success)
      && o.fetched && o.built
      && o.fs.files[CanonicalPath(env, req)] == Received(stream)
      && o.fs.files[DerivedPath(env, req)] == env.sox(Received(stream), OutputFormat(req.fileType, req.rate, Bits, Channels)).value
  {
    var fs := FsState(map[], {});
    var o := SynthesizeSpec(fs, req, env, stream);
    var filePath := FilePath(req.voice, KeyOf(env, req));
    AuditIsNotCanonical(env, req);
    ProviderCalledOnlyOnMiss(fs, req, env, stream);
    ConverterOutcome(fs, req, env, stream);
    ExtensionsDistinguish(filePath, req.exten, CacheFormat);
    ExtensionsDistinguish(filePath, req.exten, AuditFormat);
    assert o.response.result == Success;
  }
}
