/**
 * Character-level helpers shared by the argument handling of the three scripts:
 * ASCII digit runs (what the patterns `\d+` and `[0-9]+` match), decimal values,
 * first-occurrence search and POSIX path joining.
 */
module Text {
  import opened Wrappers

  /** The directory separator `os.sep` on a POSIX system. */
  const Sep: char := '/'

  predicate IsDigit(c: char) {
    '0' <= c <= '9'
  }

  predicate AllDigits(s: string) {
    forall i :: 0 <= i < |s| ==> IsDigit(s[i])
  }

  predicate HasDigit(s: string) {
    exists i :: 0 <= i < |s| && IsDigit(s[i])
  }

  /** The decimal value of a digit string, as `int()` reads it (leading zeros allowed). */
  function Value(s: string): (v: nat)
    requires AllDigits(s)
  {
    if s == [] then 0 else 10 * Value(s[..|s| - 1]) + (s[|s| - 1] as int - '0' as int)
  }

  lemma {:induction false} ValueZero(s: string)
    requires AllDigits(s)
    ensures Value(s) == 0 <==> forall i :: 0 <= i < |s| ==> s[i] == '0'
  {
    if s != [] {
      var p := s[..|s| - 1];
      ValueZero(p);
      assert forall i :: 0 <= i < |p| ==> p[i] == s[i];
      if Value(s) == 0 {
        assert Value(p) == 0 && s[|s| - 1] == '0';
      }
    }
  }

  /** End (exclusive) of the longest run of digits that starts at `i`: the greedy `\d+`. */
  function RunEnd(s: string, i: nat): (j: nat)
    requires i <= |s|
    ensures i <= j <= |s|
    ensures AllDigits(s[i..j])
    ensures j == |s| || !IsDigit(s[j])
    decreases |s| - i
  {
    if i < |s| && IsDigit(s[i]) then RunEnd(s, i + 1) else i
  }

  /** Position of the first digit at or after `i`, if any. */
  function FirstDigitFrom(s: string, i: nat): (r: Option<nat>)
    requires i <= |s|
    ensures r.None? <==> forall k :: i <= k < |s| ==> !IsDigit(s[k])
    ensures r.Some? ==> i <= r.value < |s| && IsDigit(s[r.value])
                        && forall k :: i <= k < r.value ==> !IsDigit(s[k])
    decreases |s| - i
  {
    if i == |s| then None
    else if IsDigit(s[i]) then Some(i)
    else FirstDigitFrom(s, i + 1)
  }

  /** The leftmost maximal run of digits in `s`: what `re.search("[0-9]+", s)` matches. */
  function FirstDigitRun(s: string): (r: Option<string>)
    ensures r.None? <==> !HasDigit(s)
    ensures r.Some? ==> r.value != [] && AllDigits(r.value)
  {
    match FirstDigitFrom(s, 0)
    case None => None
    case Some(i) => Some(s[i..RunEnd(s, i)])
  }

  /** The run found is the maximal run that starts at the first digit of `s`. */
  lemma FirstDigitRunLeftmost(s: string)
    requires HasDigit(s)
    ensures exists i :: 0 <= i < |s| && IsDigit(s[i])
                        && (forall k :: 0 <= k < i ==> !IsDigit(s[k]))
                        && FirstDigitRun(s) == Some(s[i..RunEnd(s, i)])
  {
    var i := FirstDigitFrom(s, 0).value;
    assert FirstDigitRun(s) == Some(s[i..RunEnd(s, i)]);
  }

  /** The greedy run is the only maximal run starting at `i`. */
  lemma {:induction false} RunEndUnique(s: string, i: nat, j: nat)
    requires i <= j <= |s|
    requires AllDigits(s[i..j])
    requires j == |s| || !IsDigit(s[j])
    ensures RunEnd(s, i) == j
    decreases j - i
  {
    if i < j {
      assert IsDigit(s[i..j][0]);
      assert s[i + 1..j] == s[i..j][1..];
      RunEndUnique(s, i + 1, j);
    }
  }

  /** Decimal rendering of a natural number, the inverse of `Value`. */
  function Show(n: nat): (s: string)
    ensures s != [] && AllDigits(s)
  {
    if n < 10 then ['0' + n as char] else Show(n / 10) + ['0' + (n % 10) as char]
  }

  lemma {:induction false} ValueShow(n: nat)
    ensures Value(Show(n)) == n
  {
    if n >= 10 {
      var s := Show(n);
      assert s[..|s| - 1] == Show(n / 10);
      ValueShow(n / 10);
    }
  }

  /** Index of the first occurrence of `x`: Python's `list.index` / `str.index`. */
  function IndexOf<T(==)>(s: seq<T>, x: T): (k: nat)
    requires x in s
    ensures k < |s| && s[k] == x && x !in s[..k]
  {
    if s[0] == x then 0 else 1 + IndexOf(s[1..], x)
  }

  /** A value appended to a sequence without it is found at the end. */
  lemma IndexOfNew<T>(s: seq<T>, x: T)
    requires x !in s
    ensures IndexOf(s + [x], x) == |s|
  {
    var k := IndexOf(s + [x], x);
    assert (s + [x])[k] == x;
  }

  /**
   * `os.path.join(dir, name)` on a POSIX system: a `name` that starts with the separator is
   * absolute and replaces the directory.
   */
  function Join(dir: string, name: string): string {
    if dir == [] then name
    else if name != [] && name[0] == Sep then name
    else if dir[|dir| - 1] == Sep then dir + name
    else dir + [Sep] + name
  }

  /**
   * For a relative name, the joined path starts with the directory, ends with the name, and
   * has one separator between them unless the directory already ends with one.
   */
  lemma JoinParts(dir: string, name: string)
    requires name == [] || name[0] != Sep
    ensures var r := Join(dir, name);
            && |r| == |dir| + |name| + (if dir == [] || dir[|dir| - 1] == Sep then 0 else 1)
            && r[..|dir|] == dir && r[|r| - |name|..] == name
            && (dir != [] && dir[|dir| - 1] != Sep ==> r[|dir|] == Sep)
  {
  }

  /** An absolute name is the whole joined path, whatever the directory. */
  lemma JoinAbsolute(dir: string, name: string)
    requires name != [] && name[0] == Sep
    ensures Join(dir, name) == name
  {
  }
}
