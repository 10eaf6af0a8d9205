/** The general string helpers: middle truncation for display, word-boundary
    truncation of file names, safe-file-name filtering, `M:SS` durations, the
    output folder name and clamping. */
module Helpers {
  import opened Wrappers
  import opened Text
  import opened Paths

  /** `truncate_middle`: keep both ends of the text around "...".  Below five
      characters the rule degenerates: up to 3 it cuts to a prefix, and at exactly
      4 there are zero characters per side, so `text[-0:]` keeps all of the text. */
  function TruncateMiddle(text: string, maxLength: int): (r: string)
    ensures |text| <= maxLength ==> r == text
    ensures |text| > maxLength && 0 <= maxLength <= 3 ==> r == text[..maxLength]
    ensures maxLength < 0 ==> r == text[..SlicePoint(|text|, maxLength)]
    ensures |text| > maxLength && maxLength == 4 ==> r == "..." + text
    ensures |text| > maxLength >= 5 ==>
      var k := (maxLength - 3) / 2;
      && k >= 1
      && r == text[..k] + "..." + text[|text| - k..]
      && maxLength - 1 <= |r| <= maxLength
  {
    if |text| <= maxLength then text
    else if maxLength <= 3 then Take(text, maxLength)
    else
      var charsEachSide := (maxLength - 3) / 2;
      var head, tail := Take(text, charsEachSide), Drop(text, -charsEachSide);
      assert charsEachSide >= 1 ==> head == text[..charsEachSide] && tail == text[|text| - charsEachSide..];
      assert charsEachSide == 0 ==> tail == text;
      head + "..." + tail
  }

  /** A text longer than maxLength ≥ 5 keeps its first and last (maxLength - 3) / 2
      characters around "...", whatever lies between them. */
  lemma TruncateMiddleKeepsEnds(head: string, middle: string, tail: string, maxLength: int)
    requires maxLength >= 5 && |head| == |tail| == (maxLength - 3) / 2
    requires |head + middle + tail| > maxLength
    ensures TruncateMiddle(head + middle + tail, maxLength) == head + "..." + tail
  {
    var t := head + middle + tail;
    assert t[..|head|] == head;
    assert t[|t| - |tail|..] == tail;
  }

  /** The repository's own example of a middle truncation: "this is a very long
      text" at 15 becomes "this i...g text", six characters from each end around
      "...". */
  lemma TruncateMiddleExample(head: string, middle: string, tail: string)
    requires head == "this i" && middle == "s a very lon" && tail == "g text"
    ensures TruncateMiddle(head + middle + tail, 15) == head + "..." + tail
  {
    TruncateMiddleKeepsEnds(head, middle, tail, 15);
  }

  /** `truncate_filename`: cut to at most maxLength characters, backing off to the
      last space inside the cut unless that would keep fewer than maxLength / 2. */
  function TruncateFilename(filename: string, maxLength: int): (r: string)
    ensures |r| <= |filename| && r == filename[..|r|]
    ensures |filename| <= maxLength ==> r == filename
    ensures |filename| > maxLength >= 0 ==> maxLength / 2 <= |r| <= maxLength
    ensures |filename| > maxLength >= 0 && |r| < maxLength ==>
      filename[|r|] == ' ' && ' ' !in filename[|r| + 1..maxLength]
    ensures |filename| > maxLength >= 0 && |r| == maxLength ==>
      ' ' !in filename[maxLength / 2..maxLength]
  {
    if |filename| <= maxLength then filename
    else
      var cut := Take(filename, maxLength);
      var truncated := RSplitHead(cut, ' ');
      if |truncated| < maxLength / 2 then cut
      else
        assert maxLength >= 0 ==> cut == filename[..maxLength];
        assert maxLength >= 0 && ' ' in cut ==> cut[|truncated| + 1..] == filename[|truncated| + 1..maxLength];
        truncated
  }

  /** Truncating an already truncated name changes nothing. */
  lemma TruncateFilenameIdempotent(filename: string, maxLength: int)
    requires maxLength >= 0
    ensures TruncateFilename(TruncateFilename(filename, maxLength), maxLength)
         == TruncateFilename(filename, maxLength)
  {
  }

  /** The characters `create_safe_filename` keeps: "-_.() ", ASCII letters, digits. */
  predicate IsSafeChar(c: char) {
    c in "-_.() " || 'a' <= c <= 'z' || 'A' <= c <= 'Z' || '0' <= c <= '9'
  }

  predicate AllSafe(s: string) {
    forall i :: 0 <= i < |s| ==> IsSafeChar(s[i])
  }

  /** r can be obtained from s by deleting characters. */
  predicate IsSubsequence(r: string, s: string)
    decreases |s|
  {
    if |r| == 0 then true
    else if |s| == 0 then false
    else if r[0] == s[0] then IsSubsequence(r[1..], s[1..])
    else IsSubsequence(r, s[1..])
  }

  /** `''.join(c for c in filename if c in valid_chars)`: a subsequence of s made
      only of safe characters, and all of s when s is already safe. */
  function FilterSafe(s: string): (r: string)
    ensures AllSafe(r)
    ensures |r| <= |s|
    ensures AllSafe(s) ==> r == s
    ensures '/' !in r
  {
    if |s| == 0 then ""
    else
      var rest := FilterSafe(s[1..]);
      if IsSafeChar(s[0]) then
        assert ([s[0]] + rest)[1..] == rest;
        [s[0]] + rest
      else rest
  }

  /** The filter keeps characters in their order: its result is a subsequence
      of its input. */
  lemma {:induction false} FilterSafeSubsequence(s: string)
    ensures IsSubsequence(FilterSafe(s), s)
    decreases |s|
  {
    if |s| > 0 {
      FilterSafeSubsequence(s[1..]);
      var rest := FilterSafe(s[1..]);
      if IsSafeChar(s[0]) {
        assert FilterSafe(s) == [s[0]] + rest;
        assert ([s[0]] + rest)[1..] == rest;
      } else {
        assert FilterSafe(s) == rest;
        SubsequenceSkip(rest, s);
      }
    }
  }

  /** Dropping the first character of s keeps r a subsequence when r was one of
      the rest. */
  lemma {:induction false} SubsequenceSkip(r: string, s: string)
    requires |s| > 0 && IsSubsequence(r, s[1..])
    ensures IsSubsequence(r, s)
    decreases |r| + |s|
  {
    if |r| > 0 && r[0] == s[0] {
      SubsequenceTail(r, s[1..]);
    }
  }

  /** A subsequence without its first character is still one. */
  lemma {:induction false} SubsequenceTail(r: string, s: string)
    requires |r| > 0 && IsSubsequence(r, s)
    ensures IsSubsequence(r[1..], s)
    decreases |r| + |s|
  {
    if |s| > 0 {
      if r[0] == s[0] {
        if |r[1..]| > 0 {
          SubsequenceTail(r[1..], s[1..]);
          SubsequenceSkip(r[1..], s);
        }
      } else {
        SubsequenceTail(r, s[1..]);
        SubsequenceSkip(r[1..], s);
      }
    }
  }

  /** The filter works character by character, so it distributes over concatenation. */
  lemma {:induction false} FilterSafeAppend(a: string, b: string)
    ensures FilterSafe(a + b) == FilterSafe(a) + FilterSafe(b)
    decreases |a|
  {
    if |a| > 0 {
      var ab := a + b;
      assert ab[0] == a[0] && ab[1..] == a[1..] + b;
      FilterSafeAppend(a[1..], b);
      var rest := FilterSafe(a[1..]) + FilterSafe(b);
      if IsSafeChar(a[0]) {
        assert FilterSafe(ab) == [a[0]] + rest;
        assert FilterSafe(a) == [a[0]] + FilterSafe(a[1..]);
      } else {
        assert FilterSafe(ab) == rest;
        assert FilterSafe(a) == FilterSafe(a[1..]);
      }
    } else {
      assert a + b == b;
    }
  }




  /** A text with no safe character filters to nothing. */
  lemma {:induction false} FilterSafeNone(s: string)
    requires forall i :: 0 <= i < |s| ==> !IsSafeChar(s[i])
    ensures FilterSafe(s) == ""
    decreases |s|
  {
    if |s| > 0 {
      FilterSafeNone(s[1..]);
    }
  }

  /** Unsafe characters between two safe texts drop out. */
  lemma FilterSafeDropsMiddle(head: string, junk: string, ext: string)
    requires AllSafe(head) && AllSafe(ext)
    requires forall i :: 0 <= i < |junk| ==> !IsSafeChar(junk[i])
    ensures FilterSafe(head + junk + ext) == head + ext
  {
    FilterSafeAppend(head + junk, ext);
    FilterSafeAppend(head, junk);
    FilterSafeNone(junk);
    assert FilterSafe(head) == head && FilterSafe(ext) == ext;
    assert FilterSafe(head + junk) == head + "" == head;
  }

  /** None of the example's special characters is safe. */
  lemma UnsafeExample(junk: string)
    requires junk == "<>:\"/\\|?*"
    ensures forall i :: 0 <= i < |junk| ==> !IsSafeChar(junk[i])
  {
  }

  /** The filter keeps every safe character as often as it occurs, and no other. */
  lemma {:induction false} FilterSafeCounts(s: string)
    ensures forall c :: IsSafeChar(c) ==> multiset(FilterSafe(s))[c] == multiset(s)[c]
    ensures forall c :: !IsSafeChar(c) ==> multiset(FilterSafe(s))[c] == 0
  {
    if |s| > 0 {
      FilterSafeCounts(s[1..]);
      assert s == [s[0]] + s[1..];
      assert multiset(s) == multiset{s[0]} + multiset(s[1..]);
    }
  }

  /** Both parts of an all-safe concatenation are all safe. */
  lemma AllSafeParts(a: string, b: string)
    requires AllSafe(a + b)
    ensures AllSafe(a) && AllSafe(b)
  {
    assert forall i :: 0 <= i < |a| ==> a[i] == (a + b)[i];
    assert forall i :: 0 <= i < |b| ==> b[i] == (a + b)[|a| + i];
  }

  /** Cutting the stem of an all-safe name and re-attaching the suffix stays safe. */
  lemma SafeCut(name: string, ext: string, k: int)
    requires AllSafe(name + ext)
    ensures AllSafe(Take(name, k) + ext)
  {
    AllSafeParts(name, ext);
    var cut := Take(name, k);
    assert forall i :: 0 <= i < |cut| ==> (cut + ext)[i] == name[i];
    assert forall i :: |cut| <= i < |cut| + |ext| ==> (cut + ext)[i] == ext[i - |cut|];
  }

  /** A safe name has no '/', so pathlib splits all of it into stem and suffix. */
  lemma SafeNameParts(safe: string)
    requires AllSafe(safe)
    ensures Stem(safe) + Suffix(safe) == safe
  {
    assert '/' !in safe by {
      assert !IsSafeChar('/');
      assert forall i :: 0 <= i < |safe| ==> safe[i] != '/';
    }
  }

  /** helpers.`create_safe_filename`: filter, then if too long cut the pathlib stem so
      that stem and suffix fit together. */
  function CreateSafeFilename(filename: string, maxLength: int): (r: string)
    ensures AllSafe(r)
    ensures |FilterSafe(filename)| <= maxLength ==> r == FilterSafe(filename)
    ensures var safe := FilterSafe(filename); var ext := Suffix(safe);
      |safe| > maxLength && |ext| <= maxLength ==>
        && Stem(safe) + ext == safe
        && |r| == maxLength
        && EndsWith(r, ext)
        && r == Stem(safe)[..maxLength - |ext|] + ext
  {
    var safe := FilterSafe(filename);
    if |safe| > maxLength then CutToFit(safe, maxLength) else safe
  }

  /** The cut of an over-long safe name: its pathlib stem shortened so that stem
      and suffix together take maxLength characters. */
  function CutToFit(safe: string, maxLength: int): (r: string)
    requires AllSafe(safe) && |safe| > maxLength
    ensures AllSafe(r)
    ensures var ext := Suffix(safe);
      |ext| <= maxLength ==>
        && Stem(safe) + ext == safe
        && |r| == maxLength
        && EndsWith(r, ext)
        && r == Stem(safe)[..maxLength - |ext|] + ext
  {
    var name, ext := Stem(safe), Suffix(safe);
    var cut := Take(name, maxLength - |ext|);
    SafeNameParts(safe);
    SafeCut(name, ext, maxLength - |ext|);
    EndsWithAppend(cut, ext);
    CutLength(name, ext, maxLength);
    cut + ext
  }

  /** Cutting the stem to maxLength minus the suffix's length leaves exactly
      room for the suffix, when the whole is too long and the suffix fits. */
  lemma CutLength(name: string, ext: string, maxLength: int)
    ensures |name| + |ext| > maxLength >= |ext| ==>
      var cut := Take(name, maxLength - |ext|);
      |cut| + |ext| == maxLength && cut == name[..maxLength - |ext|]
  {
  }

  /** A safe name whose suffix fits is a fixed point of the conversion. */
  lemma CreateSafeFilenameIdempotent(filename: string, maxLength: int)
    requires var safe := FilterSafe(filename);
      |safe| <= maxLength || |Suffix(safe)| <= maxLength
    ensures CreateSafeFilename(CreateSafeFilename(filename, maxLength), maxLength)
         == CreateSafeFilename(filename, maxLength)
  {
  }

  /** `format_duration` on whole seconds: minutes (floor division), a colon, and the
      remaining seconds as two digits. */
  function FormatDuration(seconds: int): (r: string)
    ensures seconds >= 0 ==> ParseDuration(r) == Some(seconds)
  {
    var minutes := seconds / 60;
    var rest := seconds % 60;
    if seconds >= 0 then
      ParseMinutesSeconds(minutes, rest);
      NatToString(minutes) + ":" + ZeroPad2(rest)
    else IntToString(minutes) + ":" + ZeroPad2(rest)
  }

  /** `M:SS` reads back as the minutes and seconds it was written from. */
  lemma ParseMinutesSeconds(minutes: nat, secs: nat)
    requires secs < 60
    ensures ParseDuration(NatToString(minutes) + ":" + ZeroPad2(secs)) == Some(minutes * 60 + secs)
  {
    var m, z := NatToString(minutes), ZeroPad2(secs);
    assert Canonical(m);
    ParseZeroPad2(secs);
    ParseDurationAt(m, z);
    ParseNatToString(minutes);
    ParseZeroPad2(secs);
  }

  /** Canonical minutes, a colon and two digits below 60 read back as the
      seconds they denote. */
  lemma ParseDurationAt(m: string, z: string)
    requires Canonical(m) && |z| == 2 && AllDigits(z) && ParseNat(z) < 60
    ensures ParseDuration(m + ":" + z) == Some(ParseNat(m) * 60 + ParseNat(z))
  {
    assert ':' !in m by {
      assert forall i :: 0 <= i < |m| ==> IsDigit(m[i]);
    }
    var r := m + ":" + z;
    FirstIndexAfter(m, ':', z);
    assert r == m + [':'] + z;
    assert r[..|m|] == m;
    assert r[|m| + 1..] == z;
  }

  /** Reads an `M:SS` text back: decimal minutes without a leading zero, a colon,
      two digits below 60. */
  function ParseDuration(s: string): Option<int> {
    match FirstIndex(s, ':')
    case None => None
    case Some(i) =>
      var minutes, secs := s[..i], s[i + 1..];
      if && Canonical(minutes)
         && |secs| == 2 && AllDigits(secs) && ParseNat(secs) < 60
      then Some(ParseNat(minutes) * 60 + ParseNat(secs))
      else None
  }

  /** Two different durations never format the same. */
  lemma FormatDurationInjective(a: nat, b: nat)
    requires FormatDuration(a) == FormatDuration(b)
    ensures a == b
  {
    assert ParseDuration(FormatDuration(a)) == Some(a);
  }

  /** The only text that reads back as a duration is the one `format_duration`
      writes for it: with the round trip, the format and the reader are inverse. */
  lemma ParseDurationExact(s: string, n: int)
    requires ParseDuration(s) == Some(n)
    ensures n >= 0 && s == FormatDuration(n)
  {
    var i := FirstIndex(s, ':').value;
    var minutes, secs := s[..i], s[i + 1..];
    var m, q := ParseNat(minutes), ParseNat(secs);
    assert n == m * 60 + q && q < 60;
    assert n / 60 == m && n % 60 == q;
    NatToStringParse(minutes);
    ZeroPad2Parse(secs);
    assert s == minutes + ":" + secs;
  }

  /** The repository's own examples of duration formatting. */
  lemma FormatDurationExamples(a: int, b: int)
    requires a == 65 && b == 3661
    ensures FormatDuration(a) == "1:05"
    ensures FormatDuration(b) == "61:01"
  {
    assert a / 60 == 1 && a % 60 == 5;
    assert b / 60 == 61 && b % 60 == 1;
    assert NatToString(61) == "61";
  }

  /** `get_output_folder_name`: the final component of the input without its suffix. */
  function OutputFolderName(inputFilePath: string): (r: string)
    ensures r + Suffix(inputFilePath) == Basename(inputFilePath)
    ensures '/' !in r
  {
    Stem(inputFilePath)
  }

  /** `clamp`: `max(min_value, min(value, max_value))`, on reals for the
      source's floats. */
  function Clamp(value: real, minValue: real, maxValue: real): (r: real)
    ensures minValue <= maxValue ==> minValue <= r <= maxValue
    ensures minValue <= value <= maxValue ==> r == value
    ensures value > maxValue && minValue <= maxValue ==> r == maxValue
    ensures value < minValue || minValue > maxValue ==> r == minValue
  {
    var low := if value <= maxValue then value else maxValue;
    if minValue >= low then minValue else low
  }

  lemma ClampExamples()
    ensures Clamp(5.0, 0.0, 10.0) == 5.0 && Clamp(-1.0, 0.0, 10.0) == 0.0 && Clamp(15.0, 0.0, 10.0) == 10.0
    ensures Clamp(0.25, 0.0, 1.0) == 0.25
  {
  }
}
