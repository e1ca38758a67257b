/** The synthesis endpoint and its helpers as step-by-step operations on a
    filesystem held in an object. Each method is proved to leave exactly the
    state that `CacheSpec` prescribes, so the lemmas there apply to it. */
module Service {
  import opened Encoding
  import opened CacheKey
  import opened CacheSpec

  class SynthesisService {
    var files: map<string, seq<byte>>
    var dirs: set<string>
    /** The payloads POSTed to the synthesis provider, oldest first. */
    ghost var posted: seq<string>
    /** The output paths the sox pipeline was asked to build, oldest first. */
    ghost var conversions: seq<string>

    function State(): FsState
      reads this
    {
      FsState(files, dirs)
    }

    constructor (files0: map<string, seq<byte>>, dirs0: set<string>)
      ensures State() == FsState(files0, dirs0)
      ensures posted == [] && conversions == []
    {
      files, dirs := files0, dirs0;
      posted, conversions := [], [];
    }

    /** `ensure_dir`: `os.makedirs` only when nothing exists at the path. */
    method EnsureDir(directory: string)
      modifies this`dirs
      ensures State() == EnsureDirSpec(old(State()), directory)
    {
      if !(directory in files || directory in dirs) {
        dirs := dirs + Ancestors(directory);
      }
    }

    /** POSTs the payload and streams the response body into `path`: the file
        is truncated on opening, then each chunk is appended until a read
        returns nothing. The response status is not looked at. */
    method FetchCanonical(path: string, payload: string, stream: seq<Chunk>)
      modifies this`files, this`posted
      ensures files == old(files)[path := Received(stream)]
      ensures posted == old(posted) + [payload]
    {
      posted := posted + [payload];
      files := files[path := []];
      var i := 0;
      while true
        invariant 0 <= i <= |stream|
        invariant path in files && files == old(files)[path := files[path]]
        invariant files[path] + Received(stream[i..]) == Received(stream)
        invariant posted == old(posted) + [payload]
        decreases |stream| - i
      {
        var chunk: seq<byte> := if i < |stream| then stream[i] else [];
        if chunk == [] {
          assert Received(stream[i..]) == [];
          assert files[path] + Received(stream[i..]) == files[path];
          break;
        }
        assert stream[i..][1..] == stream[i + 1..];
        files := files[path := files[path] + chunk];
        i := i + 1;
      }
    }

    /** `sox_converter`: answers "cached" when the output exists non-empty,
        otherwise runs the sox pipeline on the canonical artifact. */
    method SoxConverter(filePath: string, exten: string, fileType: string, rate: string,
                        sox: (seq<byte>, OutputFormat) -> Option<Audio>)
      returns (result: Outcome)
      requires WithExtension(filePath, CacheFormat) in files
      modifies this`files, this`conversions
      ensures var c := Convert(old(State()), filePath, exten, fileType, rate, sox);
        && State() == c.fs && result == c.result
        && conversions == old(conversions) + (if c.built then [WithExtension(filePath, exten)] else [])
    {
      var inputPath := WithExtension(filePath, CacheFormat);
      var outputPath := WithExtension(filePath, exten);
      if outputPath in files && |files[outputPath]| > 0 {
        return Cached;
      }
      conversions := conversions + [outputPath];
      var built := sox(files[inputPath], OutputFormat(fileType, rate, Bits, Channels));
      match built
      case Some(audio) =>
        files := files[outputPath := audio];
        result := Success;
      case None =>
        result := Error;
    }

    /** The `/synthesize` endpoint. */
    method Synthesize(req: Request, env: Env, stream: seq<Chunk>) returns (response: Response)
      modifies this
      ensures var o := SynthesizeSpec(old(State()), req, env, stream);
        && State() == o.fs && response == o.response
        && posted == old(posted) + (if o.fetched then [Ssml(req.text, req.voice)] else [])
        && conversions == old(conversions) + (if o.built then [DerivedPath(env, req)] else [])
    {
      var data := Ssml(req.text, req.voice);
      var md5 := env.md5(Encode(data));
      var filePath := FilePath(req.voice, md5);
      EnsureDir(FileDir(req.voice, md5));
      files := files[WithExtension(filePath, AuditFormat) := Encode(data)];
      var cachePath := WithExtension(filePath, CacheFormat);
      if !(cachePath in files && |files[cachePath]| > 0) {
        FetchCanonical(cachePath, data, stream);
      }
      var result;
      if !(cachePath in files && |files[cachePath]| > 0) {
        result := AzureError;
      } else {
        result := SoxConverter(filePath, req.exten, req.fileType, req.rate, env.sox);
      }
      response := Response(SoundPath(req.voice, md5), req.exten, result);
    }
  }

  /** Two identical requests in a row: once the first has produced the derived
      file, the second answers "cached", and over both calls the provider was
      called at most once (only if the canonical artifact was missing before)
      and sox ran at most once (only if the first call converted). */
  method RepeatRequest(service: SynthesisService, req: Request, env: Env, s1: seq<Chunk>, s2: seq<Chunk>)
    returns (first: Response, second: Response)
    modifies service
    ensures first.result in {Success, Cached} ==>
      && second == first.(result := Cached)
      && service.State() == SynthesizeSpec(old(service.State()), req, env, s1).fs
      && service.posted == old(service.posted) +
           (if HasContent(old(service.State()), CanonicalPath(env, req)) then [] else [Ssml(req.text, req.voice)])
      && service.conversions == old(service.conversions) +
           (if first.result == Success then [DerivedPath(env, req)] else [])
  {
    ghost var state0 := service.State();
    first := service.Synthesize(req, env, s1);
    second := service.Synthesize(req, env, s2);
    if first.result in {Success, Cached} {
      RepeatedRequestIsCached(state0, req, req, env, s1, s2);
      ProviderCalledOnlyOnMiss(state0, req, env, s1);
      ConverterOutcome(state0, req, env, s1);
    }
  }
}
