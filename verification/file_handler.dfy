/** `FileHandler`: audio-extension checks, the dropped-URL filter, its own copy of
    safe-file-name creation (split with `os.path.splitext`), stem output file names,
    and collision-free renaming against a finite set of existing paths. */
module FileHandler {
  import opened Wrappers
  import opened Text
  import opened Paths
  import Helpers

  /** A dropped URL as Qt reports it: whether it names a local file, and that file. */
  datatype Url = Url(isLocalFile: bool, localFile: string)

  /** An extension `is_audio_file` accepts, in any letter case: lower-cased, one of
      `AudioSettings.supported_formats`. */
  predicate IsSupportedExtension(ext: string) {
    Lower(ext) in {".mp3", ".wav", ".flac", ".m4a", ".ogg"}
  }

  /** `is_audio_file`: the lower-cased pathlib suffix is a supported extension. */
  predicate IsAudioFile(filePath: string) {
    IsSupportedExtension(Suffix(filePath))
  }

  /** The final component is a non-empty stem followed by a supported extension. */
  ghost predicate NamedLikeAudio(p: string) {
    exists k :: 0 < k < |Basename(p)| && IsSupportedExtension(Basename(p)[k..])
  }

  /** A supported extension, in any case, is a '.' followed by at least three
      characters none of which is a '.'. */
  lemma SupportedExtensionShape(ext: string)
    requires IsSupportedExtension(ext)
    ensures |ext| >= 4 && ext[0] == '.' && '.' !in ext[1..] && '/' !in ext
  {
    var l := Lower(ext);
    assert l == ".mp3" || l == ".wav" || l == ".flac" || l == ".m4a" || l == ".ogg";
    assert forall i :: 1 <= i < |l| ==> l[i] != '.' && l[i] != '/';
    assert forall i :: 0 <= i < |ext| ==> (l[i] == '.' <==> ext[i] == '.') && (l[i] == '/' <==> ext[i] == '/');
    assert forall i :: 1 <= i < |ext| ==> ext[1..][i - 1] == ext[i];
  }

  /** A file `is_audio_file` accepts has a non-empty stem before its extension. */
  lemma AudioFileNamedLikeAudio(p: string)
    requires IsAudioFile(p)
    ensures NamedLikeAudio(p)
  {
    var name := Basename(p);
    SupportedExtensionShape(Suffix(p));
    var k := |Stem(p)|;
    assert name[k..] == Suffix(p);
  }

  /** Any non-empty stem followed by a supported extension is accepted. */
  lemma NamedLikeAudioIsAudioFile(p: string)
    requires NamedLikeAudio(p)
    ensures IsAudioFile(p)
  {
    var name := Basename(p);
    var k :| 0 < k < |name| && IsSupportedExtension(name[k..]);
    SupportedExtensionShape(name[k..]);
    assert name[k + 1..] == name[k..][1..];
    SuffixAt(p, k);
  }

  /** `is_audio_file` holds exactly for final components of the form stem +
      extension with a non-empty stem; a bare ".mp3" does not count. */
  lemma IsAudioFileCharacterized(p: string)
    ensures IsAudioFile(p) <==> NamedLikeAudio(p)
  {
    if IsAudioFile(p) {
      AudioFileNamedLikeAudio(p);
    }
    if NamedLikeAudio(p) {
      NamedLikeAudioIsAudioFile(p);
    }
  }

  /** The hidden-file name ".mp3" has no pathlib suffix, so it is rejected. */
  lemma BareExtensionRejected()
    ensures !IsAudioFile(".mp3")
  {
    assert LastIndex(".mp3", '/') == None;
    assert LastIndex(".mp3", '.') == Some(0);
  }

  /** For a plain file name, acceptance depends on the extension alone, in any case. */
  lemma IsAudioFileOfName(stem: string, ext: string)
    requires |stem| >= 1 && '/' !in stem
    requires |ext| >= 2 && ext[0] == '.' && '.' !in ext[1..] && '/' !in ext
    ensures IsAudioFile(stem + ext) <==> IsSupportedExtension(ext)
  {
    SuffixOfName(stem, ext);
  }

  /** Extensions from the repository's own checks. */
  lemma SupportedExtensionExamples()
    ensures IsSupportedExtension(".mp3") && IsSupportedExtension(".flac") && IsSupportedExtension(".M4A")
    ensures !IsSupportedExtension(".txt") && !IsSupportedExtension(".mp4")
  {
    assert Lower(".mp3") == ".mp3";
    assert Lower(".flac") == ".flac";
    assert Lower(".M4A") == ".m4a";
    assert Lower(".txt") == ".txt";
    assert Lower(".mp4") == ".mp4";
  }

  /** The local files among the URLs that `accept` admits, in URL order. */
  function LocalFilesWhere(urls: seq<Url>, accept: string -> bool): (r: seq<string>)
    ensures |r| <= |urls|
    ensures forall f :: f in r <==> exists u :: u in urls && u.isLocalFile && u.localFile == f && accept(f)
  {
    if |urls| == 0 then []
    else
      var rest := LocalFilesWhere(urls[1..], accept);
      assert urls == [urls[0]] + urls[1..];
      if urls[0].isLocalFile && accept(urls[0].localFile) then [urls[0].localFile] + rest else rest
  }

  /** The filter works URL by URL, so it keeps the input order. */
  lemma {:induction false} LocalFilesWhereAppend(a: seq<Url>, b: seq<Url>, accept: string -> bool)
    ensures LocalFilesWhere(a + b, accept) == LocalFilesWhere(a, accept) + LocalFilesWhere(b, accept)
    decreases |a|
  {
    if |a| == 0 {
      assert a + b == b;
    } else {
      assert (a + b)[0] == a[0];
      assert (a + b)[1..] == a[1..] + b;
      LocalFilesWhereAppend(a[1..], b, accept);
    }
  }

  /** `get_audio_files_from_urls`: the local paths of the dropped URLs that are audio
      files, in order. */
  function AudioFilesFromUrls(urls: seq<Url>): (r: seq<string>)
    ensures |r| <= |urls|
    ensures forall f :: f in r <==> exists u :: u in urls && u.isLocalFile && u.localFile == f && IsAudioFile(f)
  {
    LocalFilesWhere(urls, IsAudioFile)
  }

  /** A single URL contributes its path exactly when it is a local audio file; with
      `AudioFilesFromUrlsAppend` this fixes the result for every list. */
  lemma AudioFilesFromOneUrl(u: Url)
    ensures AudioFilesFromUrls([u]) == if u.isLocalFile && IsAudioFile(u.localFile) then [u.localFile] else []
  {
    assert [u][1..] == [];
  }

  lemma AudioFilesFromUrlsAppend(a: seq<Url>, b: seq<Url>)
    ensures AudioFilesFromUrls(a + b) == AudioFilesFromUrls(a) + AudioFilesFromUrls(b)
  {
    LocalFilesWhereAppend(a, b, IsAudioFile);
  }

  /** FileHandler.`create_safe_filename`: the same filter as the helper, but an
      over-long name is split with `os.path.splitext`. */
  function CreateSafeFilename(filename: string, maxLength: int): (r: string)
    ensures Helpers.AllSafe(r)
    ensures var safe := Helpers.FilterSafe(filename);
      |safe| <= maxLength ==> r == safe
    ensures var safe := Helpers.FilterSafe(filename); var parts := SplitExt(safe);
      |safe| > maxLength && |parts.1| <= maxLength ==>
        && |r| == maxLength
        && EndsWith(r, parts.1)
        && r == parts.0[..maxLength - |parts.1|] + parts.1
  {
    var safe := Helpers.FilterSafe(filename);
    if |safe| > maxLength then
      var parts := SplitExt(safe);
      var cut := Take(parts.0, maxLength - |parts.1|);
      Helpers.SafeCut(parts.0, parts.1, maxLength - |parts.1|);
      EndsWithAppend(cut, parts.1);
      cut + parts.1
    else safe
  }

  /** pathlib sees no suffix in "abc.", so the helper copy cuts the whole name. */
  lemma HelperCopyOnTrailingDot(name: string)
    requires name == "abc."
    ensures Helpers.CreateSafeFilename(name, 3) == "abc"
  {
    assert Helpers.AllSafe(name);
    assert LastIndex(name, '/') == None;
    assert LastIndex(name, '.') == Some(3);
    assert SuffixStart(name) == None;
  }

  /** `os.path.splitext` sees the suffix "." in "abc.". */
  lemma SplitExtTrailingDot(name: string)
    requires name == "abc."
    ensures SplitExt(name) == (name[..3], name[3..])
  {
    assert LastIndex(name, '/') == None;
    assert LastIndex(name, '.') == Some(3);
    assert HasNonDot(name[0..3]) by {
      assert name[0..3][0] != '.';
    }
  }

  /** This copy therefore keeps the "." and cuts the stem instead. */
  lemma HandlerCopyOnTrailingDot(name: string)
    requires name == "abc."
    ensures CreateSafeFilename(name, 3) == name[..2] + name[3..]
  {
    SplitExtTrailingDot(name);
    assert Helpers.FilterSafe(name) == name by {
      assert Helpers.AllSafe(name);
    }
    assert name[..3][..2] == name[..2];
  }

  /** The two copies of `create_safe_filename` disagree on a trailing dot. */
  lemma SafeFilenameCopiesDiffer()
    ensures Helpers.CreateSafeFilename("abc.", 3) != CreateSafeFilename("abc.", 3)
  {
    HelperCopyOnTrailingDot("abc.");
    HandlerCopyOnTrailingDot("abc.");
  }

  /** The repository's example, "song" then `<>:"/\|?*` then ".mp3": every
      character outside the safe set goes. */
  lemma SafeFilenameExample(head: string, junk: string, ext: string)
    requires head == "song" && junk == "<>:\"/\\|?*" && ext == ".mp3"
    ensures CreateSafeFilename(head + junk + ext, 50) == "song.mp3"
  {
    Helpers.UnsafeExample(junk);
    assert Helpers.AllSafe(head) && Helpers.AllSafe(ext);
    Helpers.FilterSafeDropsMiddle(head, junk, ext);
    assert |head + ext| == 8 <= 50;
  }

  /** The head of an output file name: the stem, cut at a word boundary with "..."
      appended when it is longer than maxLength (file_handler.py repeats the
      truncation of `truncate_filename` inline). */
  function OutputHead(baseName: string, maxLength: int): string {
    if |baseName| > maxLength then
      var truncated := RSplitHead(Take(baseName, maxLength), ' ');
      var cut := if |truncated| < maxLength / 2 then Take(baseName, maxLength) else truncated;
      cut + "..."
    else baseName
  }

  /** The inline truncation of `create_output_filename` is `truncate_filename`
      followed by "...". */
  lemma OutputHeadTruncates(baseName: string, maxLength: int)
    ensures |baseName| > maxLength ==>
      OutputHead(baseName, maxLength) == Helpers.TruncateFilename(baseName, maxLength) + "..."
  {
  }

  /** `create_output_filename`: "<head> - <stem>.wav" from the pathlib stem of the
      original file name. */
  function CreateOutputFilename(originalFilename: string, stem: string, maxLength: int): (r: string)
    ensures EndsWith(r, " - " + stem + ".wav")
    ensures var base := Stem(originalFilename);
      |base| <= maxLength ==> r == base + (" - " + stem + ".wav")
    ensures var base := Stem(originalFilename);
      |base| > maxLength ==> r == Helpers.TruncateFilename(base, maxLength) + "..." + (" - " + stem + ".wav")
  {
    var head := OutputHead(Stem(originalFilename), maxLength);
    var tail := " - " + stem + ".wav";
    EndsWithAppend(head, tail);
    OutputHeadTruncates(Stem(originalFilename), maxLength);
    head + tail
  }

  /** The repository's example shape: "My Song Title.mp3" with stem "vocals" gives
      "My Song Title - vocals.wav" whenever the title fits. */
  lemma CreateOutputFilenameOfName(title: string, ext: string, stem: string, maxLength: int)
    requires |title| >= 1 && '/' !in title && |title| <= maxLength
    requires |ext| >= 2 && ext[0] == '.' && '.' !in ext[1..] && '/' !in ext
    ensures CreateOutputFilename(title + ext, stem, maxLength) == title + (" - " + stem + ".wav")
  {
    SuffixOfName(title, ext);
  }

  /** `f"{head} ({n}){suffix}"`. */
  function Numbered(head: string, n: nat, suffix: string): (r: string)
    ensures |r| > |NatToString(n)|
  {
    head + " (" + NatToString(n) + ")" + suffix
  }

  /** The candidate `get_available_filename` tries for counter n:
      `parent / f"{base} ({n}){suffix}"`. */
  function NumberedPath(filePath: string, n: nat): (r: string)
    ensures |r| > |NatToString(n)|
  {
    Numbered(DirPrefix(filePath) + Stem(filePath), n, Suffix(filePath))
  }

  function Pow10(k: nat): (r: nat)
    ensures r >= 1
  {
    if k == 0 then 1 else 10 * Pow10(k - 1)
  }

  /** A number of at least 10^k has more than k digits. */
  lemma {:induction false} DigitsOfLargeNumber(n: nat, k: nat)
    requires n >= Pow10(k)
    ensures |NatToString(n)| > k
  {
    if k > 0 {
      assert n / 10 >= Pow10(k - 1);
      DigitsOfLargeNumber(n / 10, k - 1);
    }
  }

  /** The length of the longest path in a finite set. */
  ghost function MaxLength(paths: set<string>): (m: nat)
    ensures forall p :: p in paths ==> |p| <= m
    decreases paths
  {
    if paths == {} then 0
    else
      var p :| p in paths;
      var m := MaxLength(paths - {p});
      if |p| > m then |p| else m
  }

  /** Candidates with a large enough counter are longer than every existing path,
      so the search of `get_available_filename` ends. */
  lemma LargeCandidatesFree(head: string, suffix: string, existing: set<string>) returns (bound: nat)
    ensures bound >= 1
    ensures forall n: nat :: n >= bound ==> Numbered(head, n, suffix) !in existing
  {
    bound := Pow10(MaxLength(existing));
    forall n: nat | n >= bound
      ensures Numbered(head, n, suffix) !in existing
    {
      DigitsOfLargeNumber(n, MaxLength(existing));
    }
  }

  /** The counter loop of `get_available_filename`: the least counter from 1 whose
      candidate is free. */
  method FirstFreeCounter(head: string, suffix: string, existing: set<string>) returns (n: nat)
    ensures n >= 1 && Numbered(head, n, suffix) !in existing
    ensures forall j: nat :: 1 <= j < n ==> Numbered(head, j, suffix) in existing
  {
    ghost var bound := LargeCandidatesFree(head, suffix, existing);
    n := 1;
    while Numbered(head, n, suffix) in existing
      invariant 1 <= n <= bound
      invariant forall j: nat :: 1 <= j < n ==> Numbered(head, j, suffix) in existing
      decreases bound - n
    {
      n := n + 1;
    }
  }

  /** `get_available_filename`, with existence on disk given as the finite set of
      existing paths: the path itself when free, otherwise the first free numbered
      candidate. */
  method AvailableFilename(filePath: string, existing: set<string>) returns (r: string)
    ensures r !in existing
    ensures filePath !in existing ==> r == filePath
    ensures filePath in existing ==>
      exists n: nat :: n >= 1 && r == NumberedPath(filePath, n)
        && forall j: nat :: 1 <= j < n ==> NumberedPath(filePath, j) in existing
  {
    if filePath !in existing {
      return filePath;
    }
    var head, suffix := DirPrefix(filePath) + Stem(filePath), Suffix(filePath);
    var counter := FirstFreeCounter(head, suffix, existing);
    r := Numbered(head, counter, suffix);
    assert forall j: nat :: NumberedPath(filePath, j) == Numbered(head, j, suffix);
    assert r == NumberedPath(filePath, counter);
  }
}
