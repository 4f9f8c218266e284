/**
 * Names the render handler derives from the source object's name: the three
 * artifact names, the encoder's input format and the local FLAC temp path.
 */
module Naming {
  import opened Options
  import opened Strings

  /**
   * The regular expression `/\.[^/.]+$/` matches `name` at index `i`: a dot,
   * then one or more characters that are neither `/` nor `.`, up to the end.
   */
  predicate ExtensionAt(name: string, i: nat)
  {
    && i + 1 < |name|
    && name[i] == '.'
    && forall k | i < k < |name| :: name[k] != '/' && name[k] != '.'
  }

  /** The pattern matches at one index at most, so the first match is the only one. */
  lemma ExtensionAtUnique(name: string, i: nat, j: nat)
    requires ExtensionAt(name, i) && ExtensionAt(name, j)
    ensures i == j
  {
  }

  /**
   * `name.replace(/\.[^/.]+$/, '')`: drops the extension matched by the
   * pattern, or returns the name unchanged when the pattern does not match
   * (no dot, a trailing dot, or a `/` after the last dot).
   */
  function StripExtension(name: string): (r: string)
    ensures r <= name
    ensures r == name || ExtensionAt(name, |r|)
    ensures r == name ==> forall i: nat :: !ExtensionAt(name, i)
  {
    match LastIndexOf(name, '.')
    case None => name
    case Some(i) =>
      if i + 1 < |name| && '/' !in name[i + 1..] then
        assert forall k | i < k < |name| :: name[k] == name[i + 1..][k - i - 1];
        name[..i]
      else
        assert forall j: nat | j < i :: !ExtensionAt(name, j);
        assert !ExtensionAt(name, i) by {
          if i + 1 < |name| {
            var k :| 0 <= k < |name[i + 1..]| && name[i + 1..][k] == '/';
            assert name[i + 1 + k] == '/';
          }
        }
        name
  }

  /**
   * `name.split('.').pop()`: the encoder's input format, the text after the
   * last dot, or the whole name when it has none. It never holds a dot.
   */
  function InputFormat(name: string): (r: string)
    ensures '.' !in r
    ensures |r| <= |name| && r == name[|name| - |r|..]
    ensures |r| == |name| || name[|name| - |r| - 1] == '.'
  {
    var parts := Split(name, '.');
    LastPartIsSuffix(name, '.');
    parts[|parts| - 1]
  }

  /**
   * The extension is stripped exactly when the name holds a dot and the input
   * format after it is non-empty and free of `/`; the name is then the base,
   * a dot, and the input format.
   */
  lemma {:induction false} StripAndFormat(name: string)
    ensures StripExtension(name) != name <==>
      ('.' in name && InputFormat(name) != "" && '/' !in InputFormat(name))
    ensures StripExtension(name) != name ==>
      name == StripExtension(name) + "." + InputFormat(name)
  {
    var r, f := StripExtension(name), InputFormat(name);
    if r != name {
      var i := |r|;
      assert ExtensionAt(name, i);
      assert |f| != |name| by { assert name[i] == '.' && name[i] !in f; }
      var j := |name| - |f| - 1;
      assert j == i;
      assert f == name[i + 1..];
      assert name == name[..i] + [name[i]] + name[i + 1..];
    }
  }

  /** Where the pattern matches, stripping cuts the name just before the match. */
  lemma StripAt(name: string, i: nat)
    requires ExtensionAt(name, i)
    ensures StripExtension(name) == name[..i]
    ensures InputFormat(name) == name[i + 1..]
  {
    StripAndFormat(name);
  }

  /** The `version` tag of a rendered artifact. */
  datatype Version = WEBM | MP4 | FLAC

  /** What replaces the source's extension in each artifact's name. */
  function Suffix(v: Version): string
  {
    match v
    case MP4 => "-web.mp4"
    case WEBM => "-web.webm"
    case FLAC => ".flac"
  }

  /** The object name of one artifact, in the source's bucket. */
  function ArtifactName(source: string, v: Version): string
  {
    StripExtension(source) + Suffix(v)
  }

  /** The three artifacts of one source have pairwise distinct names. */
  lemma ArtifactNamesDistinct(source: string, v: Version, w: Version)
    requires v != w
    ensures ArtifactName(source, v) != ArtifactName(source, w)
  {
    assert |ArtifactName(source, v)| != |ArtifactName(source, w)|;
  }

  /** Neither video artifact can land on the source object itself. */
  lemma {:induction false} VideoArtifactIsNotSource(source: string, v: Version)
    requires v != FLAC
    ensures ArtifactName(source, v) != source
  {
    var base := StripExtension(source);
    if base != source {
      StripAndFormat(source);
      assert source[|base|] == '.';
      assert ArtifactName(source, v)[|base|] == '-';
    }
  }

  /**
   * The FLAC artifact's name is the source's own name exactly when the source
   * already ends in `.flac`: the upload then overwrites the source.
   */
  lemma {:induction false} FlacArtifactIsSourceIff(source: string)
    ensures ArtifactName(source, FLAC) == source <==>
      (|source| >= 5 && source[|source| - 5..] == ".flac")
  {
    var base := StripExtension(source);
    if |source| >= 5 && source[|source| - 5..] == ".flac" {
      var i := |source| - 5;
      assert source[i] == '.';
      forall k | i < k < |source| ensures source[k] != '/' && source[k] != '.' {
        assert source[k] == ".flac"[k - i];
      }
      assert ExtensionAt(source, i);
      assert |base| == i;
      assert source == source[..i] + ".flac";
    }
  }

  /** The directory the FLAC audio is encoded into before its upload. */
  const TempDir: string := "/tmp/ts-wtf/"

  /**
   * The local file the FLAC encoder writes: the temp directory followed by the
   * FLAC object's name (bucket and job id play no part).
   */
  function FlacTempPath(flacName: string): (r: string)
    ensures TempDir <= r
    ensures r[|TempDir|..] == flacName
  {
    TempDir + flacName
  }

  /** Two jobs whose FLAC artifacts share a name share a temp path, and only they. */
  lemma FlacTempPathInjective(a: string, b: string)
    ensures FlacTempPath(a) == FlacTempPath(b) <==> a == b
  {
  }

  /** `clips/a.mov` has the stem `clips/a` and the input format `mov`. */
  lemma ClipsStem(name: string)
    requires name == "clips/a.mov"
    ensures StripExtension(name) == "clips/a" && InputFormat(name) == "mov"
  {
    assert ExtensionAt(name, 7);
    StripAt(name, 7);
  }

  /** `clips/a.mov` gives `clips/a-web.mp4`, `clips/a-web.webm` and `clips/a.flac`. */
  lemma ClipsExample(name: string, v: Version)
    requires name == "clips/a.mov"
    ensures ArtifactName(name, v) ==
      match v
      case MP4 => "clips/a-web.mp4"
      case WEBM => "clips/a-web.webm"
      case FLAC => "clips/a.flac"
  {
    ClipsStem(name);
    match v
    case MP4 => assert "clips/a" + "-web.mp4" == "clips/a-web.mp4";
    case WEBM => assert "clips/a" + "-web.webm" == "clips/a-web.webm";
    case FLAC => assert "clips/a" + ".flac" == "clips/a.flac";
  }

  /**
   * Sources that differ only in their extension render to the same artifact
   * names, and so to the same FLAC temp path, in any bucket.
   */
  lemma {:induction false} SameStemSameArtifacts(a: string, b: string, i: nat, j: nat, v: Version)
    requires ExtensionAt(a, i) && ExtensionAt(b, j) && a[..i] == b[..j]
    ensures ArtifactName(a, v) == ArtifactName(b, v)
    ensures FlacTempPath(ArtifactName(a, FLAC)) == FlacTempPath(ArtifactName(b, FLAC))
  {
    StripAt(a, i);
    StripAt(b, j);
  }

  /** `clips/a.mov` and `clips/a.avi` share their MP4 object and their FLAC temp path. */
  lemma ExtensionsCollide(a: string, b: string)
    requires a == "clips/a.mov" && b == "clips/a.avi"
    ensures a != b
    ensures ArtifactName(a, MP4) == ArtifactName(b, MP4)
    ensures FlacTempPath(ArtifactName(a, FLAC)) == FlacTempPath(ArtifactName(b, FLAC))
  {
    assert a[8] != b[8];
    assert ExtensionAt(a, 7) && ExtensionAt(b, 7);
    assert a[..7] == b[..7];
    SameStemSameArtifacts(a, b, 7, 7, MP4);
  }
}
