# Synthesis cache of the text-to-speech service

The text-to-speech service answers `POST /synthesize` with the path of a
sound file it keeps on disk. It renders the request's text and voice into an
SSML payload. The language tag of that payload is the first five characters
of the voice. The MD5 digest of the UTF-8 encoded payload is the cache key. The
entry lives at `/sounds/azure/<voice>/<d1>/<d2>/<digest>`, where `d1` and `d2`
are the first two pairs of hex digits of the digest. Every request does the
following, in this order:

1. It ensures the entry's directory, creating it and its missing parents
   only when nothing exists at that path.
2. It rewrites `<digest>.txt` with the payload, as an audit copy.
3. It calls the provider only when the canonical artifact `<digest>.sln24`
   (24 kHz, 16-bit mono PCM) is missing or empty. The provider's response
   is streamed into that file in chunks of at most 1024 bytes, until a read
   returns nothing. The response status is never checked.
4. If the canonical artifact is still missing or empty, the answer is
   `azure_error` and no conversion runs.
5. Otherwise the converter checks for `<digest>.<exten>`. If that file
   exists and is non-empty, the answer is `cached`. If not, the sox
   pipeline builds it and the answer is `success` or `error`.

The response is `{sound_path, exten, result}`. `sound_path` is the entry's
path relative to `/sounds`, with no extension.

The project has four modules:

- `Encoding` (`encoding.dfy`): UTF-8, the encoding used by `str.encode()` and by
  text-mode writes.
- `CacheKey` (`cache_key.dfy`): the SSML template, the language tag, the
  digest type and the sharded paths, with their pure properties.
- `CacheSpec` (`cache_spec.dfy`): the filesystem as a value, `FsState`
  (files as a map from path to bytes, plus a set of directories). It
  defines `ensure_dir`, `sox_converter` and `synthesize` as functions of that
  state. The lemmas here state the cache's properties: when the provider is
  called, error short-circuiting, the audit copy, "nothing else changes", and
  that a repeated request is cached.
- `Service` (`service.dfy`): the class `SynthesisService`. Its `files` and `dirs`
  fields are updated step by step, and the chunk-reading loop is a `while`
  loop. Each method is proved to produce exactly the state that `CacheSpec`
  prescribes. Ghost logs record the payloads sent to the provider and the
  conversions that ran, so "no provider call" can be stated.

The payload carries no prosody settings (rate, pitch) and no lexicon. The
request's `rate` only selects the converter's output sample rate, and it
never reaches the key. The model follows the code in this. Because the text and
the voice are substituted without escaping, two requests that differ in both
can render the same payload and share an entry (`PayloadCollision`). The derived file
is keyed by its extension alone. So a request that differs from an earlier
one only in `file_type` or `rate` is answered `cached`
(`RepeatedRequestIsCached`). The extensions `txt` and `sln24` name the
entry's own files, so asking for them always gives `cached` (or
`azure_error`) and never runs the converter (`ReservedExtensionsAreCached`).

## Model

| member | source | states |
|---|---|---|
| Encoding.EncodeChar | tts-azure/src/main.py:84 | One character encodes to a lead byte and at most three continuation bytes. The lead byte tells how many bytes there are, and decoding them gives the character back. Only ASCII characters take one byte. |
| Encoding.Encode | tts-azure/src/main.py:84 | The encoded payload has at least one and at most four bytes per character. |
| Encoding.EncodeAppend | tts-azure/src/main.py:84 | Encoding a concatenation gives the concatenation of the encodings. |
| Encoding.EncodeAscii | tts-azure/src/main.py:84 | An ASCII string encodes byte for byte. |
| Encoding.EncodeInjective | tts-azure/src/main.py:84 | Two strings have the same encoding exactly when they are equal. |
| CacheKey.Ssml | tts-azure/src/main.py:80 | The payload opens with the template's head and the language tag. The voice follows the voice element's opening, and the text stands verbatim, unescaped, right before the template's tail. Its length is the sum of the parts. |
| CacheKey.Language | tts-azure/src/main.py:80 | The language tag is a prefix of the voice. It has five characters, or the whole voice when the voice is shorter. |
| CacheKey.LanguageExamples | tts-azure/src/main.py:32 | The default voice `es-MX-JorgeNeural` gets the tag `es-MX`. A two-letter voice is its own tag. |
| CacheKey.SsmlInjectiveInText | tts-azure/src/main.py:80 | For a fixed voice, two payloads are equal exactly when the texts are equal. |
| CacheKey.SsmlInjectiveInVoice | tts-azure/src/main.py:80 | For a fixed text, two payloads are equal exactly when the voices are equal. |
| CacheKey.SsmlLengthGrowsWithVoice | tts-azure/src/main.py:80 | A longer voice gives a strictly longer payload. |
| CacheKey.PayloadInjectiveInText | tts-azure/src/main.py:80-84 | For a fixed voice, the hashed bytes are equal exactly when the texts are equal. |
| CacheKey.PayloadInjectiveInVoice | tts-azure/src/main.py:80-84 | For a fixed text, the hashed bytes are equal exactly when the voices are equal. So changing either input alone changes the hashed bytes. |
| CacheKey.PayloadCollision | tts-azure/src/main.py:80 | Because placeholders are not escaped, a voice of at least five characters extended by the text element's opening and some `p` renders the same payload as the original voice with a text that starts with `p` and that opening. Two different requests then share a key. |
| CacheKey.Key | tts-azure/src/main.py:84 | The key is a hex digest, so it contains no `/` and no `.`: it is one path component without an extension. This follows from the digest type alone. |
| CacheKey.DirSchema | tts-azure/src/main.py:86 | The entry's schema is `azure/<voice>/` followed by the digest's first pair, `/`, and its second pair. Its length is the voice's length plus 12. |
| CacheKey.SoundPath | tts-azure/src/main.py:121 | The returned path is the entry's schema followed by `/` and the whole digest. Its length is the voice's length plus 45. |
| CacheKey.FileDir | tts-azure/src/main.py:87 | The entry's directory is the schema placed under `/sounds/`. |
| CacheKey.FilePath | tts-azure/src/main.py:88 | The absolute path is `/sounds/` plus the returned path. It is the entry's directory followed by `/` and the digest. |
| CacheKey.SoundPathShape | tts-azure/src/main.py:85-88 | The returned path is `azure/<voice>/` followed by two 2-character shard directories holding the digest's first and second pairs, then the whole digest as file name with no `.` (no extension). The entry's files live at `/sounds/` plus that path. |
| CacheKey.SameShardIff | tts-azure/src/main.py:85-86 | For one voice, two digests share a shard directory exactly when their first four hex digits agree. |
| CacheKey.SoundPathInjective | tts-azure/src/main.py:85-88 | For one voice, two digests give the same returned path exactly when they are equal. |
| CacheKey.ExtensionsDistinguish | tts-azure/src/main.py:94 | Two files of an entry are the same file exactly when their extensions are equal. |
| CacheSpec.Exists | tts-azure/src/main.py:125 | Something exists at a path when a file of any size, even an empty one, or a directory stands there. |
| CacheSpec.HasContent | tts-azure/src/main.py:102 | The cache test passes only for a file that exists and is non-empty. An empty file, a directory or nothing at the path is a miss. |
| CacheSpec.Received | tts-azure/src/main.py:105-110 | The bytes written hold at most 1024 bytes per chunk. They are empty exactly when the stream is empty or its first chunk is empty. |
| CacheSpec.ReceivedIsChunksBeforeFirstEmpty | tts-azure/src/main.py:105-110 | The canonical file holds exactly the concatenation of the chunks before the first empty chunk. Nothing after that chunk is read. |
| CacheSpec.Ancestors | tts-azure/src/main.py:126 | `makedirs` creates the directory itself and only prefixes of it. |
| CacheSpec.EnsureDirSpec | tts-azure/src/main.py:124-126 | Files are untouched. Directories only grow, and the only ones added are the path itself and its parents. Afterwards something exists at the path. When something already existed there, nothing changes. |
| CacheSpec.EnsureDirIdempotent | tts-azure/src/main.py:124-126 | Ensuring a directory twice leaves the same state as ensuring it once. |
| CacheSpec.Convert | tts-azure/src/main.py:129-146 | The converter never answers `azure_error`. It leaves directories and every file but its output as they were, and writes nothing unless the result is `success`. Afterwards the output has content exactly when the result is not `error`. |
| CacheSpec.ConvertDecision | tts-azure/src/main.py:129-146 | The result is `cached` (nothing run, nothing written) exactly when the output exists non-empty. Otherwise sox runs on the canonical artifact: `success` exactly when it produces audio (the output then holds it), `error` exactly when it fails (nothing written). |
| CacheSpec.AuditIsNotCanonical | tts-azure/src/main.py:94-101 | The audit copy and the canonical artifact are different files, and the audit copy is never empty. |
| CacheSpec.ResponseShape | tts-azure/src/main.py:121 | `sound_path` is the sharded path of the key, which depends on text and voice only. The extension is echoed. |
| CacheSpec.SynthesizeSpec | tts-azure/src/main.py:65-121 | The result is `azure_error` exactly when the canonical artifact is missing or empty after the request. The converter runs only without a fetch or after a fetch of a non-empty body. No file and no directory is ever removed. |
| CacheSpec.ProviderCalledOnlyOnMiss | tts-azure/src/main.py:101-110 | The provider is called exactly when the canonical artifact was missing or empty. When it is not called, the artifact is unchanged. When it is called, the artifact holds exactly the streamed body. |
| CacheSpec.ProviderErrorShortCircuits | tts-azure/src/main.py:112-113 | The result is `azure_error` exactly when the fetch streamed an empty body. Then the converter never runs, and only the directory, the audit copy and the empty canonical file are written. |
| CacheSpec.AuditAlwaysWritten | tts-azure/src/main.py:94-95 | After every request the audit copy holds the encoded payload, whatever the cache state and the outcome. |
| CacheSpec.ConverterOutcome | tts-azure/src/main.py:112-118 | The converter runs exactly when the result is `success` or `error`. `cached` leaves the derived file in place. A derived file that existed before always gives `cached` unless the result is `azure_error`. `success` stores sox's output of the canonical artifact, and `error` means sox failed on it. |
| CacheSpec.NothingElseChanges | tts-azure/src/main.py:90-121 | Only the audit copy, the canonical artifact and the derived file can be written. The only directories created are those of the entry's directory. |
| CacheSpec.RepeatedRequestIsCached | tts-azure/src/main.py:101-134 | After `success` or `cached`, a second request with the same text, voice and extension does four things. It answers `cached` with the same path. It makes no provider call and runs no conversion. It leaves the filesystem as it was. This holds for any file type, rate or provider response. |
| CacheSpec.RetryAfterConversionError | tts-azure/src/main.py:129-146 | After `error`, the same request reuses the canonical artifact without a provider call and runs the converter again. |
| CacheSpec.RetryAfterProviderError | tts-azure/src/main.py:101-113 | After `azure_error`, the same request calls the provider again. |
| CacheSpec.ReservedExtensionsAreCached | tts-azure/src/main.py:130-134 | Asking for extension `txt` or `sln24` never runs the converter, and the result is `cached` or `azure_error`. |
| CacheSpec.FirstRequestSucceeds | tts-azure/src/main.py:65-121 | On an empty disk, a non-empty body and a successful conversion give `success`. Both artifacts are then written with the streamed body and the converted audio. |
| Service.SynthesisService.EnsureDir | tts-azure/src/main.py:124-126 | The new state is the `ensure_dir` effect on the old state. |
| Service.SynthesisService.FetchCanonical | tts-azure/src/main.py:103-110 | One payload is posted. The file is truncated, then the loop appends chunks until an empty read, so afterwards it holds exactly the received body. No other file changes. |
| Service.SynthesisService.SoxConverter | tts-azure/src/main.py:129-146 | The new state, the result and the conversion log are those of the converter's decision. |
| Service.SynthesisService.Synthesize | tts-azure/src/main.py:65-121 | The new state and the response are those of `synthesize` on the old state. The provider log grows by the payload exactly when a fetch happened. The conversion log grows by the derived path exactly when sox ran. |
| Service.RepeatRequest | tts-azure/src/main.py:101-134 | Over two identical calls where the first ends `success` or `cached`, the second answers `cached`. The provider was called at most once, and only if the canonical artifact was missing before. Sox ran at most once, and only if the first call converted. |

## Left out

- MD5 is not modelled. It is a parameter of type `seq<byte> -> Digest`, where a digest is 32 lowercase hex characters. It is deterministic, but it is not assumed to be injective. So "a different payload gives a different key" is proved only up to the hashed bytes (`PayloadInjectiveInText`, `PayloadInjectiveInVoice`).
- The sox pipeline is not modelled: trimming silence at both ends, 50 ms of padding, and resampling from sln/24000/16/1. It is a parameter that maps the canonical bytes and the output format to either non-empty audio or a failure.
- The provider's response is a parameter: the sequence of chunks its body would stream. The HTTP session, the request headers, the API token and the output-format header are left out. So are the event loop, the worker-pool offloading of the conversion and the `/voicelist` pass-through.
- Exceptions are not modelled: network errors, filesystem errors (permissions, a full disk, a regular file where a directory is expected) and sox raising. Each of these ends the request with a server error. A directory standing at a file's path is treated as missing for the size checks, where the operating system would report a directory size.
- `Ancestors` treats every prefix that ends before a `/` as a directory. It does not normalise paths (`//`, `..`, a trailing `/`) as `os.makedirs` does.
- Concurrent identical requests race on the same files. The model runs one request at a time.
- Startup is left out: the YAML logging configuration, the exit when the API token is missing, and the defaults of the query parameters (voice from the environment, `alaw`, `al`, 8000). Every request here carries all five fields. `rate` is kept as the string the endpoint declares and is passed to sox unchanged.
- The audit copy is written as UTF-8, the platform's text encoding in the service's container.
- The three speech-recognition services wrap vendor SDKs. They are not part of this model.
