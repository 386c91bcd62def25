/** The two string transforms of the log analysis: stripping the seed part of a run key
    (`remove_seed_part`) and turning a run key into a file name (`get_valid_filename`). */
module RunKeys {

  predicate IsDigit(c: char)
  {
    '0' <= c <= '9'
  }

  /** Length of the run of decimal digits starting at `i`. */
  function DigitRun(s: string, i: nat): (n: nat)
    requires i <= |s|
    ensures i + n <= |s|
    ensures forall j | i <= j < i + n :: IsDigit(s[j])
    ensures i + n < |s| ==> !IsDigit(s[i + n])
    decreases |s| - i
  {
    if i < |s| && IsDigit(s[i]) then 1 + DigitRun(s, i + 1) else 0
  }

  /** Whether the text `seed` starts at position `i`. */
  predicate SeedAt(s: string, i: nat)
  {
    i + 4 <= |s| && s[i] == 's' && s[i + 1] == 'e' && s[i + 2] == 'e' && s[i + 3] == 'd'
  }

  /** Where a match of `seed\_?([0-9]*[.])?[0-9]+` that starts at `i` ends, if one does.
      After `seed` and an optional `_`, a run of digits followed by `.` and at least one digit
      takes the decimal form; otherwise a non-empty run of digits takes the integer form. */
  function SeedMatchEnd(s: string, i: nat): (e: nat)
    requires i <= |s|
    ensures e == i || i + 5 <= e <= |s|
  {
    if !SeedAt(s, i) then i
    else
      var j := if i + 4 < |s| && s[i + 4] == '_' then i + 5 else i + 4;
      var d1 := DigitRun(s, j);
      if j + d1 < |s| && s[j + d1] == '.' && DigitRun(s, j + d1 + 1) > 0 then
        j + d1 + 1 + DigitRun(s, j + d1 + 1)
      else if d1 > 0 then j + d1
      else i
  }

  /** `re.sub(pattern, '', s[i:])`: scanning left to right, every leftmost match is dropped and the
      scan resumes after it. */
  function RemoveSeedFrom(s: string, i: nat): (r: string)
    requires i <= |s|
    ensures forall c | c in r :: c in s[i..]
    decreases |s| - i
  {
    if i == |s| then ""
    else if SeedMatchEnd(s, i) > i then RemoveSeedFrom(s, SeedMatchEnd(s, i))
    else [s[i]] + RemoveSeedFrom(s, i + 1)
  }

  /** `remove_seed_part(log_key)` */
  function RemoveSeedPart(key: string): (r: string)
    ensures |r| <= |key| && forall c | c in r :: c in key
  {
    RemoveSeedFromShorter(key, 0);
    assert key[0..] == key;
    RemoveSeedFrom(key, 0)
  }

  /** The suffix from `i` on holds no `seed`. */
  predicate NoSeedFrom(s: string, i: nat)
  {
    forall j | i <= j < |s| :: !SeedAt(s, j)
  }

  /** Every removal drops at least five characters (`seed` and a digit), and nothing is ever added:
      the result is never longer, and strictly shorter as soon as one match is removed. */
  lemma {:induction false} RemoveSeedFromShorter(s: string, i: nat)
    requires i <= |s|
    ensures |RemoveSeedFrom(s, i)| <= |s| - i
    ensures SeedMatchEnd(s, i) > i ==> |RemoveSeedFrom(s, i)| <= |s| - i - 5
    decreases |s| - i
  {
    if i < |s| {
      if SeedMatchEnd(s, i) > i {
        RemoveSeedFromShorter(s, SeedMatchEnd(s, i));
      } else {
        RemoveSeedFromShorter(s, i + 1);
      }
    }
  }

  /** Text before the first `seed` is kept as it is, in front of the rest of the result. */
  lemma {:induction false} RemoveSeedFromPrefix(s: string, i: nat, n: nat)
    requires i <= n <= |s|
    requires forall j | i <= j < n :: !SeedAt(s, j)
    ensures RemoveSeedFrom(s, i) == s[i..n] + RemoveSeedFrom(s, n)
    decreases n - i
  {
    if i < n {
      assert !SeedAt(s, i);
      calc {
        RemoveSeedFrom(s, i);
        [s[i]] + RemoveSeedFrom(s, i + 1);
        { RemoveSeedFromPrefix(s, i + 1, n); }
        [s[i]] + (s[i + 1..n] + RemoveSeedFrom(s, n));
        ([s[i]] + s[i + 1..n]) + RemoveSeedFrom(s, n);
        { assert s[i..n] == [s[i]] + s[i + 1..n]; }
        s[i..n] + RemoveSeedFrom(s, n);
      }
    }
  }

  /** A key without `seed` in it is left exactly as it is. */
  lemma RemoveSeedPartNoSeed(key: string)
    requires NoSeedFrom(key, 0)
    ensures RemoveSeedPart(key) == key
  {
    RemoveSeedFromPrefix(key, 0, |key|);
    assert key[0..|key|] == key;
  }

  /** Python's `str.isspace()`: the characters `strip()` removes by default. */
  predicate IsSpace(c: char)
  {
    || c == ' ' || '\t' <= c <= '\r' || '\U{1c}' <= c <= '\U{1f}'
    || c == '\U{85}' || c == '\U{a0}' || c == '\U{1680}'
    || '\U{2000}' <= c <= '\U{200a}' || c == '\U{2028}' || c == '\U{2029}'
    || c == '\U{202f}' || c == '\U{205f}' || c == '\U{3000}'
  }

  /** `\w`: letters, digits and the underscore (ASCII range). */
  predicate IsWordChar(c: char)
  {
    'a' <= c <= 'z' || 'A' <= c <= 'Z' || '0' <= c <= '9' || c == '_'
  }

  /** A character `get_valid_filename` lets through: `[-\w.]`. */
  predicate IsFilenameChar(c: char)
  {
    c == '-' || c == '.' || IsWordChar(c)
  }

  function StripLeft(s: string): (r: string)
    ensures |r| <= |s| && r == s[|s| - |r|..]
    ensures forall j | 0 <= j < |s| - |r| :: IsSpace(s[j])
    ensures r != [] ==> !IsSpace(r[0])
  {
    if s != [] && IsSpace(s[0]) then StripLeft(s[1..]) else s
  }

  function StripRight(s: string): (r: string)
    ensures |r| <= |s| && r == s[..|r|]
    ensures forall j | |r| <= j < |s| :: IsSpace(s[j])
    ensures r != [] ==> !IsSpace(r[|r| - 1])
  {
    if s != [] && IsSpace(s[|s| - 1]) then StripRight(s[..|s| - 1]) else s
  }

  /** `s.strip()` */
  function Strip(s: string): (r: string)
    ensures |r| <= |s|
    ensures r != [] ==> !IsSpace(r[0]) && !IsSpace(r[|r| - 1])
  {
    var l := StripLeft(s);
    var r := StripRight(l);
    assert r != [] ==> r[0] == l[0];
    r
  }

  /** `s.replace(from, to)` for single characters. */
  function ReplaceChar(s: string, from: char, to: char): (r: string)
    ensures |r| == |s|
    ensures forall j | 0 <= j < |s| :: r[j] == if s[j] == from then to else s[j]
  {
    if s == [] then "" else [if s[0] == from then to else s[0]] + ReplaceChar(s[1..], from, to)
  }

  /** `re.sub(r'[^-\w.]', '-', s)` */
  function Sanitize(s: string): (r: string)
    ensures |r| == |s|
    ensures forall j | 0 <= j < |s| :: r[j] == if IsFilenameChar(s[j]) then s[j] else '-'
  {
    if s == [] then "" else [if IsFilenameChar(s[0]) then s[0] else '-'] + Sanitize(s[1..])
  }

  /** `get_valid_filename(s)` */
  function GetValidFilename(s: string): (r: string)
    ensures |r| == |Strip(s)| && forall j | 0 <= j < |r| :: IsFilenameChar(r[j])
  {
    Sanitize(ReplaceChar(Strip(s), ' ', '-'))
  }

  /** `strip()` removes only whitespace, from both ends: the stripped text is a slice of `s`
      with whitespace alone before and after it. */
  lemma StripShape(s: string) returns (a: nat, b: nat)
    ensures a <= b <= |s| && Strip(s) == s[a..b]
    ensures forall j | 0 <= j < a :: IsSpace(s[j])
    ensures forall j | b <= j < |s| :: IsSpace(s[j])
  {
    var l := StripLeft(s);
    assert Strip(s) == StripRight(l);
    a := |s| - |l|;
    assert l == s[a..];
    b := a + |StripRight(l)|;
    StripRightTail(s, a);
  }

  /** The whitespace `StripRight` drops from the left-stripped suffix `s[a..]` is the tail of `s`. */
  lemma StripRightTail(s: string, a: nat)
    requires a <= |s|
    ensures var r := StripRight(s[a..]);
            && a + |r| <= |s| && r == s[a..a + |r|]
            && forall j | a + |r| <= j < |s| :: IsSpace(s[j])
  {
    var l := s[a..];
    var r := StripRight(l);
    assert r == l[..|r|];
    forall j | a + |r| <= j < |s| ensures IsSpace(s[j]) {
      assert s[j] == l[j - a];
    }
  }

  lemma FilenameCharNotSpace(c: char)
    requires IsFilenameChar(c)
    ensures !IsSpace(c)
  {
  }

  /** The file name keeps the stripped text's length; each character is kept if it is allowed in a
      file name and becomes `-` otherwise, so every character is a word character, `-` or `.`. */
  lemma GetValidFilenameChars(s: string)
    ensures |GetValidFilename(s)| == |Strip(s)|
    ensures forall j | 0 <= j < |Strip(s)| ::
              GetValidFilename(s)[j] == if IsFilenameChar(Strip(s)[j]) then Strip(s)[j] else '-'
    ensures forall j | 0 <= j < |GetValidFilename(s)| ::
              IsFilenameChar(GetValidFilename(s)[j]) && !IsSpace(GetValidFilename(s)[j])
  {
    var t := Strip(s);
    var u := ReplaceChar(t, ' ', '-');
    var f := Sanitize(u);
    forall j | 0 <= j < |t|
      ensures f[j] == if IsFilenameChar(t[j]) then t[j] else '-'
      ensures IsFilenameChar(f[j]) && !IsSpace(f[j])
    {
      assert u[j] == if t[j] == ' ' then '-' else t[j];
      FilenameCharNotSpace(f[j]);
    }
  }

  /** A valid file name is its own file name. */
  lemma GetValidFilenameIdempotent(s: string)
    ensures GetValidFilename(GetValidFilename(s)) == GetValidFilename(s)
  {
    var f := GetValidFilename(s);
    GetValidFilenameChars(s);
    if f != [] {
      assert !IsSpace(f[0]);
    }
    assert StripLeft(f) == f;
    if f != [] {
      assert !IsSpace(f[|f| - 1]);
    }
    assert StripRight(f) == f;
    GetValidFilenameChars(f);
  }
}
