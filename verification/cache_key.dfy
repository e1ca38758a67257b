/** The cache key of the speech-synthesis service: the SSML payload built from
    the text and the voice, its MD5 digest, and the sharded location
    `azure/<voice>/<d1>/<d2>/<digest>` under the sounds root. */
module CacheKey {
  import opened Encoding

  const Provider: string := "azure"
  const SoundsRoot: string := "/sounds"
  /** Extension of the canonical 24 kHz 16-bit mono PCM artifact. */
  const CacheFormat: string := "sln24"
  /** Extension of the plain-text copy of the payload. */
  const AuditFormat: string := "txt"

  predicate IsLowerHexDigit(c: char) {
    '0' <= c <= '9' || 'a' <= c <= 'f'
  }

  /** What `hexdigest()` of an MD5 hash looks like: 32 lowercase hex characters. */
  predicate IsHexDigest(s: string) {
    |s| == 32 && forall i | 0 <= i < |s| :: IsLowerHexDigit(s[i])
  }

  type Digest = s: string | IsHexDigest(s) witness "00000000000000000000000000000000"

  /** The `xml:lang` of the payload: the first five characters of the voice,
      or the whole voice when it is shorter (slicing clamps). */
  function Language(voice: string): (lang: string)
    ensures lang <= voice
    ensures |lang| == if |voice| < 5 then |voice| else 5
  {
    if |voice| < 5 then voice else voice[..5]
  }

  /** The default voice gets the tag "es-MX"; a voice shorter than five characters is its own tag. */
  lemma LanguageExamples()
    ensures Language("es-MX-JorgeNeural") == "es-MX"
    ensures Language("es") == "es"
  {
  }

  // The SSML template, cut at its three placeholders.
  const SsmlHead: string :=
    "\n<speak version=\"1.0\"\n       xmlns=\"https://www.w3.org/2001/10/synthesis\"\n       xmlns:mstts=\"http://www.w3.org/2001/mstts\"\n       xml:lang=\""
  const SsmlVoiceOpen: string := "\">\n  <voice name=\""
  const SsmlTextOpen: string := "\">\n      "
  const SsmlTail: string := "\n  </voice>\n</speak>\n"

  /** Where each part of a seven-part concatenation sits. */
  lemma PartsOfConcat(a: string, b: string, c: string, d: string, e: string, f: string, g: string)
    ensures var r := a + b + c + d + e + f + g;
      var v := |a| + |b| + |c|;
      && |r| == v + |d| + |e| + |f| + |g|
      && r[..|a|] == a
      && r[|a|..|a| + |b|] == b
      && r[v..v + |d|] == d
      && r[|r| - |g| - |f|..|r| - |g|] == f
      && r[|r| - |g|..] == g
  {
    var r := a + b + c + d + e + f + g;
    assert r == a + (b + c + d + e + f + g);
    assert r == (a + b) + (c + d + e + f + g);
    assert r == (a + b + c) + (d + e + f + g);
    assert r == (a + b + c + d + e) + (f + g);
    assert r == (a + b + c + d + e + f) + g;
  }

  /** The payload sent to the provider: the template filled with language, voice and text.
      The placeholders are substituted verbatim, without escaping: the
      payload opens with the template's head and the language tag, the voice
      stands right after the voice element's opening, and the text stands
      unchanged right before the template's tail. */
  function Ssml(text: string, voice: string): (r: string)
    ensures var v := |SsmlHead| + |Language(voice)| + |SsmlVoiceOpen|;
      && |r| == v + |voice| + |SsmlTextOpen| + |text| + |SsmlTail|
      && r[..|SsmlHead|] == SsmlHead
      && r[|SsmlHead|..|SsmlHead| + |Language(voice)|] == Language(voice)
      && r[v..v + |voice|] == voice
      && r[|r| - |SsmlTail| - |text|..|r| - |SsmlTail|] == text
      && r[|r| - |SsmlTail|..] == SsmlTail
  {
    PartsOfConcat(SsmlHead, Language(voice), SsmlVoiceOpen, voice, SsmlTextOpen, text, SsmlTail);
    SsmlHead + Language(voice) + SsmlVoiceOpen + voice + SsmlTextOpen + text + SsmlTail
  }

  /** The middle part of a three-part concatenation is recovered by slicing. */
  lemma MiddleOfConcat(a: string, x: string, b: string)
    ensures (a + x + b)[|a|..|a| + |x|] == x
  {
  }

  /** For one voice, distinct texts give distinct payloads. */
  lemma SsmlInjectiveInText(t1: string, t2: string, voice: string)
    ensures Ssml(t1, voice) == Ssml(t2, voice) <==> t1 == t2
  {
  }

  /** The payload grows strictly with the length of the voice. */
  lemma SsmlLengthGrowsWithVoice(text: string, v1: string, v2: string)
    requires |v1| < |v2|
    ensures |Ssml(text, v1)| < |Ssml(text, v2)|
  {
  }

  /** For one text, distinct voices give distinct payloads: both voices must
      have one length, and a voice of a given length sits at a fixed offset. */
  lemma SsmlInjectiveInVoice(text: string, v1: string, v2: string)
    ensures Ssml(text, v1) == Ssml(text, v2) <==> v1 == v2
  {
  }

  /** The cache key: the hex digest of the UTF-8 encoded payload. Being hex,
      it is a single path component and carries no extension. */
  function Key(md5: seq<byte> -> Digest, text: string, voice: string): (h: Digest)
    ensures '/' !in h && '.' !in h
  {
    md5(Encode(Ssml(text, voice)))
  }

  /** `provider/voice/d1/d2`, where d1 and d2 are the first two pairs of the digest. */
  function DirSchema(voice: string, h: Digest): (r: string)
    ensures |r| == |Provider| + |voice| + 7
    ensures r[..|Provider| + |voice| + 2] == Provider + "/" + voice + "/"
    ensures r[|r| - 5..] == h[..2] + "/" + h[2..4]
  {
    Provider + "/" + voice + "/" + h[..2] + "/" + h[2..4]
  }

  /** The path the service returns: relative to the sounds root, without an
      extension; it extends the entry's directory by the whole digest. */
  function SoundPath(voice: string, h: Digest): (r: string)
    ensures |r| == |Provider| + |voice| + 40
    ensures r[..|r| - 33] == DirSchema(voice, h)
    ensures r[|r| - 33..] == "/" + h
  {
    DirSchema(voice, h) + "/" + h
  }

  /** The directory of the entry: its schema placed under the sounds root. */
  function FileDir(voice: string, h: Digest): (r: string)
    ensures |r| == |SoundsRoot| + |Provider| + |voice| + 8
    ensures r[..|SoundsRoot| + 1] == SoundsRoot + "/"
    ensures r[|SoundsRoot| + 1..] == DirSchema(voice, h)
  {
    SoundsRoot + "/" + DirSchema(voice, h)
  }

  /** The absolute path every artifact of the entry extends with its own
      extension: the returned path placed under the sounds root, and a direct
      child of the entry's directory. */
  function FilePath(voice: string, h: Digest): (r: string)
    ensures r == SoundsRoot + "/" + SoundPath(voice, h)
    ensures r[..|r| - 33] == FileDir(voice, h) && r[|r| - 33..] == "/" + h
  {
    FileDir(voice, h) + "/" + h
  }

  function WithExtension(path: string, ext: string): string {
    path + "." + ext
  }

  /** The layout of the returned path: provider and voice, then two one-level
      shard directories holding the first and second pair of hex digits, then
      the whole digest as file name, which has no extension; the files of the
      entry live under the sounds root at that path. */
  lemma SoundPathShape(voice: string, h: Digest)
    ensures var p := SoundPath(voice, h);
      && |p| == |Provider| + |voice| + 40
      && p[..|Provider| + |voice| + 2] == Provider + "/" + voice + "/"
      && p[|p| - 38..|p| - 36] == h[..2] && p[|p| - 36] == '/'
      && p[|p| - 35..|p| - 33] == h[2..4] && p[|p| - 33] == '/'
      && p[|p| - 32..] == h
      && '.' !in p[|p| - 32..] && '/' !in p[|p| - 32..]
  {
  }

  /** Two digests share a shard directory exactly when their first four hex digits agree. */
  lemma SameShardIff(voice: string, h1: Digest, h2: Digest)
    ensures DirSchema(voice, h1) == DirSchema(voice, h2) <==> h1[..4] == h2[..4]
  {
    var a := Provider + "/" + voice + "/";
    assert DirSchema(voice, h1) == a + (h1[..2] + "/" + h1[2..4]);
    assert DirSchema(voice, h2) == a + (h2[..2] + "/" + h2[2..4]);
    if DirSchema(voice, h1) == DirSchema(voice, h2) {
      MiddleOfConcat(a, h1[..2] + "/" + h1[2..4], []);
      MiddleOfConcat(a, h2[..2] + "/" + h2[2..4], []);
      assert a + (h1[..2] + "/" + h1[2..4]) + [] == DirSchema(voice, h1);
      assert a + (h2[..2] + "/" + h2[2..4]) + [] == DirSchema(voice, h2);
      assert h1[..2] + "/" + h1[2..4] == h2[..2] + "/" + h2[2..4];
      assert h1[..2] == (h1[..2] + "/" + h1[2..4])[..2];
      assert h2[..2] == (h2[..2] + "/" + h2[2..4])[..2];
      assert h1[2..4] == (h1[..2] + "/" + h1[2..4])[3..];
      assert h2[2..4] == (h2[..2] + "/" + h2[2..4])[3..];
      assert h1[..4] == h1[..2] + h1[2..4];
      assert h2[..4] == h2[..2] + h2[2..4];
    }
    if h1[..4] == h2[..4] {
      assert h1[..2] == h1[..4][..2] && h2[..2] == h2[..4][..2];
      assert h1[2..4] == h1[..4][2..] && h2[2..4] == h2[..4][2..];
    }
  }

  /** For one voice, distinct digests give distinct returned paths. */
  lemma SoundPathInjective(voice: string, h1: Digest, h2: Digest)
    ensures SoundPath(voice, h1) == SoundPath(voice, h2) <==> h1 == h2
  {
    if SoundPath(voice, h1) == SoundPath(voice, h2) {
      SoundPathShape(voice, h1);
      SoundPathShape(voice, h2);
    }
  }

  /** The artifacts of one entry differ exactly when their extensions do. */
  lemma ExtensionsDistinguish(path: string, e1: string, e2: string)
    ensures WithExtension(path, e1) == WithExtension(path, e2) <==> e1 == e2
  {
    if WithExtension(path, e1) == WithExtension(path, e2) {
      var n := |path| + 1;
      assert e1 == WithExtension(path, e1)[n..];
      assert e2 == WithExtension(path, e2)[n..];
    }
  }

  /** For one voice, distinct texts give distinct hashed bytes. */
  lemma PayloadInjectiveInText(t1: string, t2: string, voice: string)
    ensures Encode(Ssml(t1, voice)) == Encode(Ssml(t2, voice)) <==> t1 == t2
  {
    EncodeInjective(Ssml(t1, voice), Ssml(t2, voice));
    SsmlInjectiveInText(t1, t2, voice);
  }

  /** For one text, distinct voices give distinct hashed bytes. */
  lemma PayloadInjectiveInVoice(text: string, v1: string, v2: string)
    ensures Encode(Ssml(text, v1)) == Encode(Ssml(text, v2)) <==> v1 == v2
  {
    EncodeInjective(Ssml(text, v1), Ssml(text, v2));
    SsmlInjectiveInVoice(text, v1, v2);
  }

  /** Because the placeholders are not escaped, two requests that differ in
      both text and voice can render the same payload, and so share a key: a
      voice of at least five characters extended by the text element's
      opening and some `p`, with a text cut after that opening, gives the
      payload of the original voice with the text `p`, the opening and the
      rest. */
  lemma PayloadCollision(voice: string, p: string, text: string)
    requires |voice| >= 5
    ensures Ssml(text, voice + SsmlTextOpen + p) == Ssml(p + SsmlTextOpen + text, voice)
    ensures voice + SsmlTextOpen + p != voice
  {
    var v2 := voice + SsmlTextOpen + p;
    assert Language(v2) == Language(voice) by {
      assert v2[..5] == voice[..5];
    }
    Regroup(SsmlHead + Language(voice) + SsmlVoiceOpen, voice, SsmlTextOpen, p, text, SsmlTail);
  }

  /** Moving a middle part from one slot of a concatenation to the next. */
  lemma Regroup(a: string, v: string, x: string, p: string, t: string, z: string)
    ensures a + (v + x + p) + x + t + z == a + v + x + (p + x + t) + z
  {
  }
}
