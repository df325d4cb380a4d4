/** The parts of Python's `str` and `pathlib` behaviour that the modelled code
    relies on: `strip()`, `split(',')`, ASCII `lower()`, substring tests,
    code-point ordering of strings, and `Path(...).suffix`. The model assumes a
    POSIX host, where `Path` is `PurePosixPath`: only '/' separates
    components. */
module Strings {
  import opened Base

  /** The characters for which Python's `str.isspace()` holds; `str.strip()`
      with no argument removes exactly these from both ends. */
  predicate IsSpace(c: char) {
    || ('\t' <= c <= '\r')
    || ('\U{1C}' <= c <= '\U{1F}')
    || c == ' '
    || c == '\U{85}'
    || c == '\U{A0}'
    || c == '\U{1680}'
    || ('\U{2000}' <= c <= '\U{200A}')
    || c == '\U{2028}'
    || c == '\U{2029}'
    || c == '\U{202F}'
    || c == '\U{205F}'
    || c == '\U{3000}'
  }

  /** True when `s.strip()` is falsy, i.e. `s` is empty or all whitespace. */
  predicate IsBlank(s: string) {
    forall k | 0 <= k < |s| :: IsSpace(s[k])
  }

  /** How many whitespace characters `s` starts with. */
  function LeadingSpace(s: string): (n: nat)
    ensures n <= |s|
    ensures forall k | 0 <= k < n :: IsSpace(s[k])
    ensures n < |s| ==> !IsSpace(s[n])
  {
    if s == [] || !IsSpace(s[0]) then 0
    else
      var n := LeadingSpace(s[1..]);
      assert forall k | 1 <= k < n + 1 :: s[k] == s[1..][k - 1];
      n + 1
  }

  /** How many whitespace characters `s` ends with. */
  function TrailingSpace(s: string): (n: nat)
    ensures n <= |s|
    ensures forall k | |s| - n <= k < |s| :: IsSpace(s[k])
    ensures n < |s| ==> !IsSpace(s[|s| - 1 - n])
  {
    if s == [] || !IsSpace(s[|s| - 1]) then 0
    else
      var n := TrailingSpace(s[..|s| - 1]);
      assert forall k | |s| - 1 - n <= k < |s| - 1 :: s[k] == s[..|s| - 1][k];
      n + 1
  }

  /** Python's `s.strip()`: the infix of `s` between its leading and trailing
      whitespace. It is empty exactly when `s` is blank, and otherwise starts
      and ends with a non-whitespace character. */
  function Strip(s: string): (r: string)
    ensures LeadingSpace(s) + |r| <= |s|
    ensures r == s[LeadingSpace(s)..LeadingSpace(s) + |r|]
    ensures forall k | LeadingSpace(s) + |r| <= k < |s| :: IsSpace(s[k])
    ensures r == [] <==> IsBlank(s)
    ensures r != [] ==> !IsSpace(r[0]) && !IsSpace(r[|r| - 1])
  {
    var lead := LeadingSpace(s);
    if lead == |s| then []
    else
      var trail := TrailingSpace(s);
      s[lead..|s| - trail]
  }

  /** `s` has no whitespace at either end. */
  predicate IsStripped(s: string) {
    s == [] || (!IsSpace(s[0]) && !IsSpace(s[|s| - 1]))
  }

  /** A string with no whitespace at either end is its own `strip()`. */
  lemma {:induction false} StripOfStripped(s: string)
    requires IsStripped(s)
    ensures Strip(s) == s
  {
    if s != [] {
      assert LeadingSpace(s) == 0;
      assert TrailingSpace(s) == 0;
    }
  }

  /** `strip()` is idempotent. */
  lemma StripIdempotent(s: string)
    ensures Strip(Strip(s)) == Strip(s)
  {
    StripOfStripped(Strip(s));
  }

  /** The position of the first `c` in `s`, as `s.find(c)` when it is not -1. */
  function IndexOf(s: string, c: char): (r: Option<nat>)
    ensures r.Some? ==> r.value < |s| && s[r.value] == c && c !in s[..r.value]
    ensures r.None? ==> c !in s
  {
    if s == [] then None
    else if s[0] == c then Some(0)
    else match IndexOf(s[1..], c)
      case None => None
      case Some(i) => Some(i + 1)
  }

  /** The position of the last `c` in `s`, as `s.rfind(c)` when it is not -1. */
  function LastIndexOf(s: string, c: char): (r: Option<nat>)
    ensures r.Some? ==> r.value < |s| && s[r.value] == c && c !in s[r.value + 1..]
    ensures r.None? ==> c !in s
  {
    if s == [] then None
    else if s[|s| - 1] == c then Some(|s| - 1)
    else LastIndexOf(s[..|s| - 1], c)
  }

  /** `sep.join(parts)` for a one-character separator. */
  function Join(parts: seq<string>, sep: char): string
    requires |parts| >= 1
  {
    if |parts| == 1 then parts[0] else parts[0] + [sep] + Join(parts[1..], sep)
  }

  /** Python's `s.split(sep)` for a one-character separator: at least one
      piece, no piece contains the separator, and joining the pieces back
      with the separator gives `s` again. */
  function Split(s: string, sep: char): (parts: seq<string>)
    ensures |parts| >= 1
    ensures forall k | 0 <= k < |parts| :: sep !in parts[k]
    ensures Join(parts, sep) == s
    decreases |s|
  {
    match IndexOf(s, sep)
    case None => [s]
    case Some(i) =>
      var rest := Split(s[i + 1..], sep);
      var parts := [s[..i]] + rest;
      assert parts[1..] == rest;
      assert s == s[..i] + [sep] + s[i + 1..];
      parts
  }

  /** `split` undoes `join` when no piece contains the separator. */
  lemma {:induction false} SplitJoin(parts: seq<string>, sep: char)
    requires |parts| >= 1
    requires forall k | 0 <= k < |parts| :: sep !in parts[k]
    ensures Split(Join(parts, sep), sep) == parts
    decreases |parts|
  {
    var s := Join(parts, sep);
    if |parts| == 1 {
      assert IndexOf(s, sep).None?;
    } else {
      var tail := Join(parts[1..], sep);
      assert s == parts[0] + [sep] + tail;
      assert s[|parts[0]|] == sep;
      assert s[..|parts[0]|] == parts[0];
      IndexOfAfterPrefix(parts[0], sep, tail);
      assert s[|parts[0]| + 1..] == tail;
      SplitJoin(parts[1..], sep);
    }
  }

  /** The first separator of `a + [c] + b` is the one after `a` when `a` has none. */
  lemma {:induction false} IndexOfAfterPrefix(a: string, c: char, b: string)
    requires c !in a
    ensures IndexOf(a + [c] + b, c) == Some(|a|)
  {
    if a != [] {
      assert (a + [c] + b)[1..] == a[1..] + [c] + b;
      IndexOfAfterPrefix(a[1..], c, b);
    }
  }

  /** Python's `c.lower()` restricted to ASCII letters. */
  function LowerChar(c: char): char {
    if 'A' <= c <= 'Z' then (c as int + 32) as char else c
  }

  predicate IsUpper(c: char) {
    'A' <= c <= 'Z'
  }

  /** `s.lower()` on ASCII letters: the result has no capital letter left,
      every other character stays where it was, and each capital becomes
      the letter 32 code points above it. */
  function Lower(s: string): (r: string)
    ensures |r| == |s|
    ensures forall k | 0 <= k < |r| :: !IsUpper(r[k])
    ensures forall k | 0 <= k < |s| && !IsUpper(s[k]) :: r[k] == s[k]
    ensures forall k | 0 <= k < |s| && IsUpper(s[k]) :: r[k] as int == s[k] as int + 32
  {
    seq(|s|, k requires 0 <= k < |s| => LowerChar(s[k]))
  }

  /** Lower-casing changes a string exactly when it holds a capital letter. */
  lemma LowerFixes(s: string)
    ensures Lower(s) == s <==> forall k | 0 <= k < |s| :: !IsUpper(s[k])
  {
    if forall k | 0 <= k < |s| :: !IsUpper(s[k]) {
      assert forall k | 0 <= k < |s| :: Lower(s)[k] == s[k];
    }
  }

  /** `s.lower().lower() == s.lower()`. */
  lemma LowerIdempotent(s: string)
    ensures Lower(Lower(s)) == Lower(s)
  {
    LowerFixes(Lower(s));
  }

  /** `sub` occurs in `s` starting at position `i`. */
  predicate OccursAt(s: string, sub: string, i: int) {
    0 <= i && i + |sub| <= |s| && s[i..i + |sub|] == sub
  }

  /** Python's `sub in s` for strings. */
  predicate Contains(s: string, sub: string) {
    exists i | 0 <= i <= |s| - |sub| :: OccursAt(s, sub, i)
  }

  /** Python's `a < b` on strings: code-point order, with a proper prefix
      before any of its extensions. */
  predicate LexLess(a: string, b: string)
    decreases |a|
  {
    if a == [] then b != []
    else if b == [] then false
    else if a[0] != b[0] then a[0] < b[0]
    else LexLess(a[1..], b[1..])
  }

  lemma LexLessIrreflexive(a: string)
    ensures !LexLess(a, a)
  {
  }

  lemma LexLessTransitive(a: string, b: string, c: string)
    requires LexLess(a, b) && LexLess(b, c)
    ensures LexLess(a, c)
  {
  }

  lemma LexLessTotal(a: string, b: string)
    ensures a == b || LexLess(a, b) || LexLess(b, a)
  {
  }

  lemma LexLessAsymmetric(a: string, b: string)
    requires LexLess(a, b)
    ensures !LexLess(b, a)
  {
  }

  /** The last component of a pathlib path that is neither empty nor ".". */
  function LastComponent(parts: seq<string>): string {
    if parts == [] then ""
    else if parts[|parts| - 1] in {"", "."} then LastComponent(parts[..|parts| - 1])
    else parts[|parts| - 1]
  }

  /** `Path(path).name` on a POSIX host: pathlib drops empty and "." components. */
  function BaseName(path: string): (name: string)
    ensures '/' !in name
  {
    var parts := Split(path, '/');
    LastComponentOf(parts);
    LastComponent(parts)
  }

  lemma {:induction false} LastComponentOf(parts: seq<string>)
    ensures LastComponent(parts) == "" || LastComponent(parts) in parts
  {
    if parts != [] && parts[|parts| - 1] in {"", "."} {
      LastComponentOf(parts[..|parts| - 1]);
    }
  }

  /** `name` has a dot at `i` that is neither its first nor its last
      character and has no dot after it. */
  predicate SuffixDotAt(name: string, i: int) {
    0 < i < |name| - 1 && name[i] == '.' && '.' !in name[i + 1..]
  }

  /** `Path(path).suffix` on a POSIX host: the name's tail from its last dot, or ""
      when the name has no dot, starts with its only dot, or ends with a dot.
      A suffix is present exactly when such a last dot exists. */
  function Suffix(path: string): (ext: string)
    ensures ext != [] ==> ext[0] == '.' && |ext| >= 2 && '.' !in ext[1..] && '/' !in ext
    ensures ext != [] ==> |ext| < |BaseName(path)| && ext == BaseName(path)[|BaseName(path)| - |ext|..]
    ensures ext != [] <==> exists i :: SuffixDotAt(BaseName(path), i)
    ensures forall i | SuffixDotAt(BaseName(path), i) :: ext == BaseName(path)[i..]
  {
    var name := BaseName(path);
    forall i | SuffixDotAt(name, i) ensures LastIndexOf(name, '.') == Some(i) {
      LastDotIsUnique(name, i);
    }
    match LastIndexOf(name, '.')
    case None => ""
    case Some(i) =>
      if 0 < i < |name| - 1 then
        assert forall c | c in name[i..] :: c in name;
        assert SuffixDotAt(name, i);
        name[i..]
      else ""
  }

  /** A dot with no dot after it is the one `rfind` reports. */
  lemma LastDotIsUnique(name: string, i: int)
    requires SuffixDotAt(name, i)
    ensures LastIndexOf(name, '.') == Some(i)
  {
    assert name[i] in name;
  }
}
