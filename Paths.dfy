/** File-name arithmetic of `pathlib` as the image loader and the document
    generator use it: the final component of a path, its suffix (the part
    that decides whether a file is a supported image) and its stem (the
    part printed in a caption). */
module Paths {

  /** Separators of a Windows path; `pathlib` accepts both. */
  predicate IsSeparator(c: char) {
    c == '/' || c == '\\'
  }

  /** Index of the last occurrence of `c` in `s`, or -1 (`str.rfind`). */
  function RFind(s: string, c: char): (r: int)
    ensures -1 <= r < |s|
    ensures r >= 0 ==> s[r] == c
    ensures forall j :: r < j < |s| ==> s[j] != c
  {
    if s == [] then -1
    else if s[|s| - 1] == c then |s| - 1
    else RFind(s[..|s| - 1], c)
  }

  /** Index of the last separator in `p`, or -1 when there is none. */
  function LastSeparator(p: string): (r: int)
    ensures -1 <= r < |p|
    ensures r >= 0 ==> IsSeparator(p[r])
    ensures forall j :: r < j < |p| ==> !IsSeparator(p[j])
  {
    if p == [] then -1
    else if IsSeparator(p[|p| - 1]) then |p| - 1
    else LastSeparator(p[..|p| - 1])
  }

  /** The last separator is the only separator with none after it. */
  lemma LastSeparatorAt(p: string, k: int)
    requires -1 <= k < |p|
    requires k >= 0 ==> IsSeparator(p[k])
    requires forall j :: k < j < |p| ==> !IsSeparator(p[j])
    ensures LastSeparator(p) == k
  {
  }

  /** The final component of a path (`PurePath.name`): everything after the
      last separator. */
  function Name(p: string): (r: string)
    ensures |r| <= |p|
    ensures forall j :: 0 <= j < |r| ==> !IsSeparator(r[j])
  {
    p[LastSeparator(p) + 1..]
  }

  /** Position of the dot that starts the suffix of a name, if it has one:
      the last dot, provided it is neither the first nor the last character. */
  function SuffixDot(name: string): (r: int)
  {
    var i := RFind(name, '.');
    if 0 < i < |name| - 1 then i else -1
  }

  /** `PurePath.suffix`. */
  function Suffix(p: string): (r: string)
    ensures r == [] || (2 <= |r| && r[0] == '.')
    ensures forall j :: 1 <= j < |r| ==> r[j] != '.'
  {
    var name := Name(p);
    var i := SuffixDot(name);
    if i >= 0 then name[i..] else []
  }

  /** `PurePath.stem`. */
  function Stem(p: string): (r: string)
  {
    var name := Name(p);
    var i := SuffixDot(name);
    if i >= 0 then name[..i] else name
  }

  /** Stem and suffix split the final component of a path, and a non-empty
      name keeps a non-empty stem. */
  lemma {:induction false} StemSuffixSplitName(p: string)
    ensures Stem(p) + Suffix(p) == Name(p)
    ensures Name(p) != [] ==> Stem(p) != []
  {
    var name := Name(p);
    var i := SuffixDot(name);
    if i >= 0 {
      assert name[..i] + name[i..] == name;
    }
  }

  /** The suffix dot of `stem + ext` is the dot that starts `ext`. */
  lemma SuffixDotOfFile(stem: string, ext: string)
    requires stem != []
    requires |ext| >= 2 && ext[0] == '.'
    requires forall j :: 1 <= j < |ext| ==> ext[j] != '.'
    ensures SuffixDot(stem + ext) == |stem|
  {
    var name := stem + ext;
    var i := |stem|;
    var r := RFind(name, '.');
    assert name[i] == '.';
    assert forall j :: i < j < |name| ==> name[j] == ext[j - i];
  }

  /** The name of a separator-free file in a directory path is the file. */
  lemma NameOfFileInDir(dir: string, file: string)
    requires dir == [] || IsSeparator(dir[|dir| - 1])
    requires forall j :: 0 <= j < |file| ==> !IsSeparator(file[j])
    ensures Name(dir + file) == file
  {
    var p := dir + file;
    forall j | |dir| - 1 < j < |p| ensures !IsSeparator(p[j]) {
      assert p[j] == file[j - |dir|];
    }
    if dir != [] {
      assert p[|dir| - 1] == dir[|dir| - 1];
    }
    LastSeparatorAt(p, |dir| - 1);
    assert p[|dir|..] == file;
  }

  /** A file called `stem + ext` in directory `dir` has suffix `ext` and stem
      `stem`, when `ext` is a dot followed by at least one character and no
      further dot, and the stem is non-empty. */
  lemma SuffixOfFileName(dir: string, stem: string, ext: string)
    requires dir == [] || IsSeparator(dir[|dir| - 1])
    requires stem != []
    requires forall j :: 0 <= j < |stem| ==> !IsSeparator(stem[j])
    requires |ext| >= 2 && ext[0] == '.'
    requires forall j :: 1 <= j < |ext| ==> ext[j] != '.' && !IsSeparator(ext[j])
    ensures Suffix(dir + stem + ext) == ext
    ensures Stem(dir + stem + ext) == stem
  {
    var file := stem + ext;
    SeparatorFreeConcat(stem, ext);
    assert dir + stem + ext == dir + file;
    NameOfFileInDir(dir, file);
    SuffixDotOfFile(stem, ext);
    SplitAtSuffixDot(dir + file, |stem|);
    assert file[|stem|..] == ext && file[..|stem|] == stem;
  }

  lemma SeparatorFreeConcat(stem: string, ext: string)
    requires forall j :: 0 <= j < |stem| ==> !IsSeparator(stem[j])
    requires |ext| >= 1 && ext[0] == '.'
    requires forall j :: 1 <= j < |ext| ==> !IsSeparator(ext[j])
    ensures forall j :: 0 <= j < |stem + ext| ==> !IsSeparator((stem + ext)[j])
  {
    var file := stem + ext;
    forall j | 0 <= j < |file| ensures !IsSeparator(file[j]) {
      if j >= |stem| { assert file[j] == ext[j - |stem|]; }
    }
  }

  /** Suffix and stem of a path whose name has its suffix dot at `i`. */
  lemma SplitAtSuffixDot(p: string, i: int)
    requires SuffixDot(Name(p)) == i >= 0
    ensures Suffix(p) == Name(p)[i..] && Stem(p) == Name(p)[..i]
  {
  }

  /** A file whose whole name starts with its only dot, such as ".jpg",
      has no suffix. */
  lemma DotFileHasNoSuffix(dir: string)
    requires dir == [] || IsSeparator(dir[|dir| - 1])
    ensures Suffix(dir + ".jpg") == []
  {
    NameOfFileInDir(dir, ".jpg");
    DotJpgHasNoSuffixDot();
  }

  lemma DotJpgHasNoSuffixDot()
    ensures SuffixDot(".jpg") == -1
  {
    var s := ".jpg";
    assert s[..3] == ".jp" && s[..3][..2] == ".j" && s[..3][..2][..1] == ".";
    assert RFind(".", '.') == 0;
    assert RFind(".j", '.') == 0;
    assert RFind(".jp", '.') == 0;
  }

  /** ASCII lower-casing, character by character. */
  function LowerChar(c: char): (r: char)
  {
    if 'A' <= c <= 'Z' then (c as int + 32) as char else c
  }

  /** `str.lower()` restricted to ASCII letters: no capital letter is
      left, every capital becomes the small letter at the same place in the
      alphabet, and every other character stays where and what it was. */
  function Lower(s: string): (r: string)
    ensures |r| == |s|
    ensures forall j :: 0 <= j < |r| ==> !('A' <= r[j] <= 'Z')
    ensures forall j :: 0 <= j < |s| && 'A' <= s[j] <= 'Z' ==>
      'a' <= r[j] <= 'z' && r[j] as int - 'a' as int == s[j] as int - 'A' as int
    ensures forall j :: 0 <= j < |s| && !('A' <= s[j] <= 'Z') ==> r[j] == s[j]
  {
    seq(|s|, j requires 0 <= j < |s| => LowerChar(s[j]))
  }

  /** Lower-casing twice is lower-casing once. */
  lemma LowerIdempotent(s: string)
    ensures Lower(Lower(s)) == Lower(s)
  {
    var once := Lower(s);
    assert forall j :: 0 <= j < |once| ==> Lower(once)[j] == once[j];
  }

  /** The lower-case form of ".JPG". */
  lemma LowerJpg()
    ensures Lower(".JPG") == ".jpg"
  {
    var r := Lower(".JPG");
    assert r[0] == '.' && r[1] == 'j' && r[2] == 'p' && r[3] == 'g';
  }

  /** The lower-case form of ".TXT". */
  lemma LowerTxt()
    ensures Lower(".TXT") == ".txt"
  {
    var r := Lower(".TXT");
    assert r[0] == '.' && r[1] == 't' && r[2] == 'x' && r[3] == 't';
  }

  /** A string without capital letters is its own lower-case form. */
  lemma LowerOfLowerCase(s: string)
    requires forall j :: 0 <= j < |s| ==> !('A' <= s[j] <= 'Z')
    ensures Lower(s) == s
  {
    assert forall j :: 0 <= j < |s| ==> Lower(s)[j] == s[j];
  }
}
