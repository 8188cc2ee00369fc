/** The download endpoint for synthesised audio: `GET /tts/{filename}` serves a
    file of the TTS directory. File-system paths are modelled as Unix paths: an
    absolute flag and the sequence of name elements, the form `java.nio` keeps
    after dropping empty elements between slashes. Whether a file exists is a
    given predicate. */
module TtsResource {
  import opened JavaLang

  datatype PathValue = PathValue(absolute: bool, segments: seq<string>)

  // ---------------------------------------------------------------- parsing

  /** The name elements of `s[i..]` when the element being read so far is `cur`:
      elements are the maximal runs between slashes, and empty ones are dropped. */
  function SplitFrom(s: string, i: nat, cur: string): (segs: seq<string>)
    requires i <= |s|
    requires forall k | 0 <= k < |cur| :: cur[k] != '/'
    ensures forall j | 0 <= j < |segs| :: segs[j] != "" && forall k | 0 <= k < |segs[j]| :: segs[j][k] != '/'
    decreases |s| - i
  {
    if i == |s| then (if cur == "" then [] else [cur])
    else if s[i] == '/' then (if cur == "" then [] else [cur]) + SplitFrom(s, i + 1, "")
    else SplitFrom(s, i + 1, cur + [s[i]])
  }

  /** `Path.of(s)` on Unix: absolute when it starts with '/'. */
  function ParsePath(s: string): (p: PathValue)
    ensures forall j | 0 <= j < |p.segments| :: p.segments[j] != ""
  {
    PathValue(|s| > 0 && s[0] == '/', SplitFrom(s, 0, ""))
  }

  /** A file name without slashes and without the special elements is one element. */
  lemma ParsePlainName(name: string)
    requires name != "" && forall k | 0 <= k < |name| :: name[k] != '/'
    ensures ParsePath(name) == PathValue(false, [name])
  {
    SplitPlain(name, 0, "");
    assert [] + name[0..] == name;
  }

  lemma {:induction false} SplitPlain(s: string, i: nat, cur: string)
    requires i <= |s| && forall k | 0 <= k < |s| :: s[k] != '/'
    requires forall k | 0 <= k < |cur| :: cur[k] != '/'
    requires cur + s[i..] != ""
    ensures SplitFrom(s, i, cur) == [cur + s[i..]]
    decreases |s| - i
  {
    if i < |s| {
      assert cur + s[i..] == (cur + [s[i]]) + s[i + 1..];
      SplitPlain(s, i + 1, cur + [s[i]]);
    } else {
      assert cur + s[i..] == cur;
    }
  }

  /** "../name" parses to the parent element followed by the name. */
  lemma ParseParentName(name: string)
    requires name != "" && forall k | 0 <= k < |name| :: name[k] != '/'
    ensures ParsePath("../" + name) == PathValue(false, ["..", name])
  {
    var s := "../" + name;
    assert s[0] == '.' && s[1] == '.' && s[2] == '/';
    assert forall k | 0 <= k < |name| :: s[3 + k] == name[k];
    SplitPlain(s[3..], 0, "");
    assert s[3..] == name;
    SplitAfterSlash(s, name);
  }

  lemma SplitAfterSlash(s: string, name: string)
    requires |s| >= 3 && s[0] == '.' && s[1] == '.' && s[2] == '/' && s[3..] == name && name != ""
    requires forall k | 0 <= k < |name| :: name[k] != '/'
    ensures SplitFrom(s, 0, "") == ["..", name]
  {
    assert "" + [s[0]] == "." && "." + [s[1]] == "..";
    assert SplitFrom(s, 2, "..") == [".."] + SplitFrom(s, 3, "");
    SplitSuffix(s, 3, name);
  }

  lemma SplitSuffix(s: string, i: nat, name: string)
    requires i <= |s| && s[i..] == name && name != ""
    requires forall k | 0 <= k < |name| :: name[k] != '/'
    ensures SplitFrom(s, i, "") == [name]
  {
    SplitTail(s, i, "", name);
  }

  lemma {:induction false} SplitTail(s: string, i: nat, cur: string, name: string)
    requires i <= |s| && |cur| <= |name| && s[i..] == name[|cur|..] && cur == name[..|cur|] && name != ""
    requires forall k | 0 <= k < |name| :: name[k] != '/'
    ensures SplitFrom(s, i, cur) == [name]
    decreases |s| - i
  {
    if i == |s| {
      assert cur == name;
    } else {
      assert s[i] == name[|cur|];
      assert cur + [s[i]] == name[..|cur| + 1];
      SplitTail(s, i + 1, cur + [s[i]], name);
    }
  }

  // ---------------------------------------------------------------- operations

  /** `dir.resolve(other)`: an absolute `other` replaces `dir`, an empty one gives
      `dir`, otherwise the elements are appended. */
  function Resolve(dir: PathValue, other: PathValue): (r: PathValue)
    ensures !other.absolute ==> r.absolute == dir.absolute && r.segments == dir.segments + other.segments
    ensures other.absolute ==> r == other
  {
    if other.absolute then other
    else if other.segments == [] then dir
    else PathValue(dir.absolute, dir.segments + other.segments)
  }

  /** The element sequence `normalize()` produces, element by element: "." is
      dropped; ".." removes the element before it, unless there is none or it is
      itself ".."; then an absolute path drops it (the parent of the root is the
      root) and a relative one keeps it. */
  function NormSegs(absolute: bool, segs: seq<string>): (r: seq<string>)
    ensures |r| <= |segs|
  {
    if segs == [] then []
    else
      var st := NormSegs(absolute, segs[..|segs| - 1]);
      var last := segs[|segs| - 1];
      if last == "." then st
      else if last == ".." then
        if st != [] && st[|st| - 1] != ".." then st[..|st| - 1]
        else if absolute then st
        else st + [".."]
      else st + [last]
  }

  function Normalize(p: PathValue): PathValue {
    PathValue(p.absolute, NormSegs(p.absolute, p.segments))
  }

  /** `p.startsWith(q)`: the same kind of path, and `q`'s elements begin `p`'s. */
  predicate PathStartsWith(p: PathValue, q: PathValue) {
    p.absolute == q.absolute && |q.segments| <= |p.segments| && p.segments[..|q.segments|] == q.segments
  }

  /** A normal element sequence: no ".", and ".." only in a leading run of a
      relative path. */
  predicate Clean(absolute: bool, segs: seq<string>) {
    && (forall j | 0 <= j < |segs| :: segs[j] != ".")
    && (forall j | 0 <= j < |segs| :: segs[j] == ".." ==> !absolute && forall k | 0 <= k < j :: segs[k] == "..")
  }

  /** Names without the special elements. */
  predicate Plain(segs: seq<string>) {
    forall j | 0 <= j < |segs| :: segs[j] != "." && segs[j] != ".."
  }

  // ---------------------------------------------------------------- normalisation properties

  /** Normalising yields a clean sequence. */
  lemma {:induction false} NormSegsClean(absolute: bool, segs: seq<string>)
    ensures Clean(absolute, NormSegs(absolute, segs))
  {
    if segs != [] {
      NormSegsClean(absolute, segs[..|segs| - 1]);
    }
  }

  /** A clean sequence is left as it is. */
  lemma {:induction false} CleanIsFixed(absolute: bool, segs: seq<string>)
    requires Clean(absolute, segs)
    ensures NormSegs(absolute, segs) == segs
  {
    if segs != [] {
      var init := segs[..|segs| - 1];
      assert Clean(absolute, init);
      CleanIsFixed(absolute, init);
      assert segs == init + [segs[|segs| - 1]];
    }
  }

  /** Normalising twice is normalising once. */
  lemma NormalizeIdempotent(p: PathValue)
    ensures Normalize(Normalize(p)) == Normalize(p)
  {
    NormSegsClean(p.absolute, p.segments);
    CleanIsFixed(p.absolute, NormSegs(p.absolute, p.segments));
  }

  /** Appending plain names to a sequence appends them to its normal form. */
  lemma {:induction false} NormSegsAppendPlain(absolute: bool, segs: seq<string>, names: seq<string>)
    requires Plain(names)
    ensures NormSegs(absolute, segs + names) == NormSegs(absolute, segs) + names
  {
    if names != [] {
      var init := names[..|names| - 1];
      NormSegsAppendPlain(absolute, segs, init);
      assert (segs + names)[..|segs + names| - 1] == segs + init;
    } else {
      assert segs + names == segs;
    }
  }

  // ---------------------------------------------------------------- the endpoint

  datatype TtsReply =
    | NotFound
    | Served(file: PathValue, contentType: string, disposition: string)

  /** `audio/mpeg` for a name ending in ".mp3" in any case, else `audio/wav`. Only
      'M' and 'P' lower-case to the letters of ".mp3", so US-ASCII folding gives
      the same answer as `toLowerCase`. */
  function ContentType(filename: string): (t: string)
    ensures t == "audio/mpeg" <==> EndsWith(LowerAsciiString(filename), ".mp3")
    ensures t == "audio/mpeg" || t == "audio/wav"
  {
    if EndsWith(LowerAsciiString(filename), ".mp3") then "audio/mpeg" else "audio/wav"
  }

  /** The file to serve for a name under `dir`, if the check lets it through. */
  function Candidate(dir: PathValue, filename: string): PathValue {
    Normalize(Resolve(dir, ParsePath(filename)))
  }

  /** `getTtsFile(filename)` as written: the normalised candidate must start
      with the configured directory, which is absolute but never normalised,
      and must exist. */
  function GetTtsFile(dir: PathValue, filename: string, present: PathValue -> bool): (r: TtsReply)
    ensures r.Served? <==> PathStartsWith(Candidate(dir, filename), dir) && present(Candidate(dir, filename))
    ensures r.Served? ==> r.file == Candidate(dir, filename) && r.contentType == ContentType(filename)
                          && r.disposition == "inline; filename=\"" + filename + "\""
  {
    var file := Candidate(dir, filename);
    if !PathStartsWith(file, dir) || !present(file) then NotFound
    else Served(file, ContentType(filename), "inline; filename=\"" + filename + "\"")
  }

  /** A served file is normal and inside the directory: it is the directory
      followed by further elements, none of them "." and, for an absolute
      directory, none of them "..". */
  lemma ServedInsideDir(dir: PathValue, filename: string, present: PathValue -> bool)
    requires GetTtsFile(dir, filename, present).Served?
    ensures var f := GetTtsFile(dir, filename, present).file;
            && f.segments[..|dir.segments|] == dir.segments
            && Normalize(f) == f
            && (forall j | |dir.segments| <= j < |f.segments| :: f.segments[j] != ".")
            && (dir.absolute ==> forall j | |dir.segments| <= j < |f.segments| :: f.segments[j] != "..")
  {
    var p := Resolve(dir, ParsePath(filename));
    NormalizeIdempotent(p);
    NormSegsClean(p.absolute, p.segments);
  }

  /** With a clean directory, a plain file name is served exactly when the file
      present, as the directory followed by the name. */
  lemma PlainNameServed(dir: PathValue, name: string, present: PathValue -> bool)
    requires Clean(dir.absolute, dir.segments)
    requires name != "." && name != ".." && name != "" && forall k | 0 <= k < |name| :: name[k] != '/'
    ensures Candidate(dir, name) == PathValue(dir.absolute, dir.segments + [name])
    ensures GetTtsFile(dir, name, present).Served? <==> present(PathValue(dir.absolute, dir.segments + [name]))
  {
    ParsePlainName(name);
    NormSegsAppendPlain(dir.absolute, dir.segments, [name]);
    CleanIsFixed(dir.absolute, dir.segments);
  }

  /** Climbing out of an absolute clean directory into a sibling is refused,
      whether or not the sibling present. */
  lemma SiblingRefused(dir: PathValue, name: string, present: PathValue -> bool)
    requires dir.absolute && Clean(true, dir.segments) && |dir.segments| >= 1
    requires name != "." && name != ".." && name != "" && forall k | 0 <= k < |name| :: name[k] != '/'
    requires name != dir.segments[|dir.segments| - 1]
    ensures GetTtsFile(dir, "../" + name, present) == NotFound
  {
    ParseParentName(name);
    var segs := dir.segments + ["..", name];
    assert segs[..|segs| - 1] == dir.segments + [".."];
    assert (dir.segments + [".."])[..|dir.segments|] == dir.segments;
    CleanIsFixed(true, dir.segments);
    var up := dir.segments[..|dir.segments| - 1];
    assert NormSegs(true, dir.segments + [".."]) == up;
    assert NormSegs(true, segs) == up + [name];
  }

  /** An absolute name that does not normalise into the directory is refused. */
  lemma AbsoluteOutsideRefused(dir: PathValue, filename: string, present: PathValue -> bool)
    requires |filename| > 0 && filename[0] == '/'
    requires !PathStartsWith(Normalize(ParsePath(filename)), dir)
    ensures GetTtsFile(dir, filename, present) == NotFound
  {
  }

  // ---------------------------------------------------------------- the unnormalised directory

  /** The configured directory is compared as given: an absolute directory
      carrying a "." element (a `tts-dir` of "./tts-output" made absolute)
      refuses every plain name, even one whose file present. */
  lemma DotInDirRefusesAll(name: string, present: PathValue -> bool)
    requires name != "." && name != ".." && name != "" && forall k | 0 <= k < |name| :: name[k] != '/'
    ensures GetTtsFile(PathValue(true, ["app", ".", "tts-output"]), name, present) == NotFound
  {
    var dir := PathValue(true, ["app", ".", "tts-output"]);
    ParsePlainName(name);
    var segs := dir.segments + [name];
    NormSegsAppendPlain(true, dir.segments, [name]);
    assert dir.segments[..2] == ["app", "."] && dir.segments[..1] == ["app"] && dir.segments[..0] == [];
    assert NormSegs(true, dir.segments) == ["app", "tts-output"];
  }

  /** The check against the normalised directory, which the endpoint evidently
      intends: the name must stay inside the directory the TTS files are written to. */
  function GetTtsFileNormalizedDir(dir: PathValue, filename: string, present: PathValue -> bool): (r: TtsReply)
    ensures r.Served? <==> PathStartsWith(Candidate(dir, filename), Normalize(dir)) && present(Candidate(dir, filename))
  {
    var file := Candidate(dir, filename);
    if !PathStartsWith(file, Normalize(dir)) || !present(file) then NotFound
    else Served(file, ContentType(filename), "inline; filename=\"" + filename + "\"")
  }

  /** With the normalised directory, every plain name is served exactly when its
      file, in the normalised directory, present, whatever the configured text. */
  lemma NormalizedDirServesPlainNames(dir: PathValue, name: string, present: PathValue -> bool)
    requires name != "." && name != ".." && name != "" && forall k | 0 <= k < |name| :: name[k] != '/'
    ensures var f := PathValue(dir.absolute, NormSegs(dir.absolute, dir.segments) + [name]);
            Candidate(dir, name) == f
            && (GetTtsFileNormalizedDir(dir, name, present).Served? <==> present(f))
  {
    ParsePlainName(name);
    NormSegsAppendPlain(dir.absolute, dir.segments, [name]);
  }
}
