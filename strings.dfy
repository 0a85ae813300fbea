/**
 * String operations shared by the modelled Java and Python code: searching,
 * splitting on a literal separator (Java's String.replace, Guava's Splitter,
 * Python's str.split), joining, trimming and ASCII case folding.
 * Strings are sequences of characters; no Unicode normalisation is modelled.
 */
module Strings {
  import opened Wrappers

  predicate StartsWith(s: string, p: string)
  {
    |p| <= |s| && s[..|p|] == p
  }

  predicate EndsWith(s: string, p: string)
  {
    |p| <= |s| && s[|s| - |p|..] == p
  }

  /** `t` occurs in `s` starting at position `j`. */
  predicate OccursAt(s: string, t: string, j: nat)
  {
    j + |t| <= |s| && s[j..j + |t|] == t
  }

  /** Past the first character, occurrences in `s` are those in its tail, one position further. */
  lemma OccursShift(s: string, t: string, j: nat)
    requires 1 <= j && s != []
    ensures OccursAt(s, t, j) <==> OccursAt(s[1..], t, j - 1)
  {
    if j + |t| <= |s| {
      assert s[1..][j - 1..j - 1 + |t|] == s[j..j + |t|];
    }
  }

  lemma OccursTail(s: string, t: string)
    requires s != []
    ensures forall j :: 1 <= j <= |s| ==> (OccursAt(s, t, j) <==> OccursAt(s[1..], t, j - 1))
  {
    forall j | 1 <= j <= |s| ensures OccursAt(s, t, j) <==> OccursAt(s[1..], t, j - 1) {
      OccursShift(s, t, j);
    }
  }

  /** Index of the first occurrence of `t` in `s`, as Java's indexOf. */
  function IndexOf(s: string, t: string): (r: Option<nat>)
    ensures r.Some? ==> OccursAt(s, t, r.value)
    ensures r.Some? ==> forall j :: 0 <= j < r.value ==> !OccursAt(s, t, j)
    ensures r.None? ==> forall j :: 0 <= j <= |s| ==> !OccursAt(s, t, j)
    decreases |s|
  {
    if OccursAt(s, t, 0) then Some(0)
    else if s == [] then None
    else
      OccursTail(s, t);
      match IndexOf(s[1..], t)
      case None => None
      case Some(i) => Some(i + 1)
  }

  /** Java's String.contains. */
  predicate Contains(s: string, t: string)
  {
    IndexOf(s, t).Some?
  }

  lemma ContainsAt(s: string, t: string, j: nat)
    requires j + |t| <= |s| && s[j..j + |t|] == t
    ensures Contains(s, t)
  {
    assert OccursAt(s, t, j);
  }

  /** No occurrence of `t` ends at or before the first one. */
  lemma NoOccurrenceBefore(s: string, t: string, i: nat)
    requires |t| > 0 && i <= |s|
    requires forall j :: 0 <= j < i ==> !OccursAt(s, t, j)
    ensures !Contains(s[..i], t)
  {
    forall j | 0 <= j <= i ensures !OccursAt(s[..i], t, j) {
      if j + |t| <= i {
        assert !OccursAt(s, t, j);
        assert s[..i][j..j + |t|] == s[j..j + |t|];
      }
    }
  }

  /**
   * Splits `s` at every occurrence of the non-empty `sep`, scanning left to
   * right, keeping empty pieces: Python's str.split(sep), Guava's
   * Splitter.on(sep) and the pieces between the hits of Java's String.replace.
   */
  function SplitOn(s: string, sep: string): (parts: seq<string>)
    requires |sep| > 0
    ensures |parts| >= 1
    decreases |s|
  {
    match IndexOf(s, sep)
    case None => [s]
    case Some(i) => [s[..i]] + SplitOn(s[i + |sep|..], sep)
  }

  function Join(parts: seq<string>, sep: string): string
  {
    if |parts| == 0 then ""
    else if |parts| == 1 then parts[0]
    else parts[0] + sep + Join(parts[1..], sep)
  }

  /** Joining the pieces with the separator gives the input back. */
  lemma {:induction false} JoinSplitOn(s: string, sep: string)
    requires |sep| > 0
    ensures Join(SplitOn(s, sep), sep) == s
    decreases |s|
  {
    match IndexOf(s, sep)
    case None =>
    case Some(i) =>
      var rest := s[i + |sep|..];
      var parts := SplitOn(rest, sep);
      JoinSplitOn(rest, sep);
      assert SplitOn(s, sep) == [s[..i]] + parts;
      JoinCons(s[..i], parts, sep);
      AroundSeparator(s, i, sep);
  }

  lemma JoinCons(a: string, parts: seq<string>, sep: string)
    requires |parts| >= 1
    ensures Join([a] + parts, sep) == a + sep + Join(parts, sep)
  {
    assert ([a] + parts)[1..] == parts;
  }

  /** A string is the text before an occurrence of `sep`, `sep`, and the text after it. */
  lemma AroundSeparator(s: string, i: nat, sep: string)
    requires i + |sep| <= |s| && s[i..i + |sep|] == sep
    ensures s == s[..i] + sep + s[i + |sep|..]
  {
  }

  /** No piece contains the separator. */
  lemma {:induction false} SplitOnPiecesFree(s: string, sep: string)
    requires |sep| > 0
    ensures forall k :: 0 <= k < |SplitOn(s, sep)| ==> !Contains(SplitOn(s, sep)[k], sep)
    decreases |s|
  {
    match IndexOf(s, sep)
    case None =>
    case Some(i) =>
      var rest := s[i + |sep|..];
      SplitOnPiecesFree(rest, sep);
      NoOccurrenceBefore(s, sep, i);
      assert SplitOn(s, sep) == [s[..i]] + SplitOn(rest, sep);
  }

  /** The first occurrence found by IndexOf is the one at the first position where `t` starts. */
  lemma IndexOfAt(s: string, t: string, k: nat)
    requires OccursAt(s, t, k)
    requires forall j :: 0 <= j < k ==> !OccursAt(s, t, j)
    ensures IndexOf(s, t) == Some(k)
  {
  }

  lemma OccursAtChar(s: string, j: nat, c: char)
    ensures OccursAt(s, [c], j) <==> j < |s| && s[j] == c
  {
    if j < |s| { assert s[j..j + 1] == [s[j]]; }
  }

  /**
   * Splitting on a one-character separator undoes joining with it, as long as
   * no piece contains that character.
   */
  lemma {:induction false} SplitJoinChar(parts: seq<string>, c: char)
    requires |parts| >= 1
    requires forall k :: 0 <= k < |parts| ==> c !in parts[k]
    ensures SplitOn(Join(parts, [c]), [c]) == parts
  {
    var s := Join(parts, [c]);
    if |parts| == 1 {
      forall j | 0 <= j <= |s| ensures !OccursAt(s, [c], j) {
        OccursAtChar(s, j, c);
      }
    } else {
      var rest := Join(parts[1..], [c]);
      assert s == parts[0] + [c] + rest;
      var k := |parts[0]|;
      forall j | 0 <= j < k ensures !OccursAt(s, [c], j) {
        OccursAtChar(s, j, c);
        assert s[j] == parts[0][j];
      }
      OccursAtChar(s, k, c);
      IndexOfAt(s, [c], k);
      assert s[..k] == parts[0];
      assert s[k + 1..] == rest;
      SplitJoinChar(parts[1..], c);
      assert [parts[0]] + parts[1..] == parts;
    }
  }

  /** A string without the separator is its own single piece. */
  lemma SplitOnAbsent(s: string, sep: string)
    requires |sep| > 0 && !Contains(s, sep)
    ensures SplitOn(s, sep) == [s]
  {
  }

  /** Java's String.replace(target, replacement) for a non-empty target. */
  function ReplaceAll(s: string, target: string, replacement: string): string
    requires |target| > 0
  {
    Join(SplitOn(s, target), replacement)
  }

  /** Replacing a target that does not occur changes nothing. */
  lemma ReplaceAbsent(s: string, target: string, replacement: string)
    requires |target| > 0 && !Contains(s, target)
    ensures ReplaceAll(s, target, replacement) == s
  {
    SplitOnAbsent(s, target);
  }

  /** Replacing the target by itself changes nothing. */
  lemma ReplaceBySelf(s: string, target: string)
    requires |target| > 0
    ensures ReplaceAll(s, target, target) == s
  {
    JoinSplitOn(s, target);
  }

  /** Java's replace, one occurrence at a time: the text before the first occurrence, the replacement, then the rest replaced. */
  lemma ReplaceAllAt(s: string, target: string, replacement: string, i: nat)
    requires |target| > 0 && IndexOf(s, target) == Some(i)
    ensures i + |target| <= |s|
    ensures ReplaceAll(s, target, replacement) == s[..i] + replacement + ReplaceAll(s[i + |target|..], target, replacement)
  {
    var parts := SplitOn(s[i + |target|..], target);
    assert SplitOn(s, target) == [s[..i]] + parts;
    assert ([s[..i]] + parts)[1..] == parts;
  }

  /** A first character where the target does not start is kept as it is. */
  lemma ReplaceCons(s: string, target: string, replacement: string)
    requires |target| > 0 && s != [] && !OccursAt(s, target, 0)
    ensures ReplaceAll(s, target, replacement) == [s[0]] + ReplaceAll(s[1..], target, replacement)
  {
    match IndexOf(s[1..], target)
    case None =>
      assert IndexOf(s, target).None?;
      ReplaceAbsent(s, target, replacement);
      ReplaceAbsent(s[1..], target, replacement);
    case Some(i) =>
      assert IndexOf(s, target) == Some(i + 1);
      ReplaceConsAt(s, target, replacement, i);
  }

  lemma ReplaceConsAt(s: string, target: string, replacement: string, i: nat)
    requires |target| > 0 && s != [] && IndexOf(s, target) == Some(i + 1) && IndexOf(s[1..], target) == Some(i)
    ensures ReplaceAll(s, target, replacement) == [s[0]] + ReplaceAll(s[1..], target, replacement)
  {
    ReplaceAllAt(s, target, replacement, i + 1);
    ReplaceAllAt(s[1..], target, replacement, i);
    SliceCons(s, i, |target|);
    ConsConcat(s[0], s[1..][..i], replacement, ReplaceAll(s[i + 1 + |target|..], target, replacement));
  }

  lemma SliceCons(s: string, i: nat, n: nat)
    requires i + 1 + n <= |s|
    ensures s[..i + 1] == [s[0]] + s[1..][..i]
    ensures s[i + 1 + n..] == s[1..][i + n..]
  {
  }

  lemma ConsConcat(c: char, a: string, b: string, d: string)
    ensures [c] + a + b + d == [c] + (a + b + d)
  {
  }

  /** `t` starts at none of the first `n` positions of `s`. */
  predicate NoStartBefore(s: string, t: string, n: nat)
  {
    forall j :: 0 <= j < n && j <= |s| ==> !OccursAt(s, t, j)
  }

  lemma NoStartTail(x: string, s: string, t: string)
    requires x != [] && NoStartBefore(x + s, t, |x|)
    ensures !OccursAt(x + s, t, 0) && (x + s)[1..] == x[1..] + s && (x + s)[0] == x[0]
    ensures NoStartBefore(x[1..] + s, t, |x| - 1)
  {
    assert (x + s)[1..] == x[1..] + s;
    forall j | 0 <= j < |x| - 1 ensures !OccursAt(x[1..] + s, t, j) {
      OccursShift(x + s, t, j + 1);
    }
  }

  /** Replacing in a prefix where the target starts nowhere leaves the prefix as it is. */
  lemma {:induction false} ReplaceShift(x: string, s: string, target: string, replacement: string)
    requires |target| > 0 && NoStartBefore(x + s, target, |x|)
    ensures ReplaceAll(x + s, target, replacement) == x + ReplaceAll(s, target, replacement)
    decreases |x|
  {
    if x == [] {
      assert x + s == s;
    } else {
      NoStartTail(x, s, target);
      ReplaceCons(x + s, target, replacement);
      ReplaceShift(x[1..], s, target, replacement);
      ConsAppend(x, ReplaceAll(s, target, replacement));
    }
  }

  lemma ConsAppend(x: string, y: string)
    requires x != []
    ensures [x[0]] + (x[1..] + y) == x + y
  {
  }

  /** A string that starts with the target has it replaced first. */
  lemma ReplaceAtStart(target: string, s: string, replacement: string)
    requires |target| > 0
    ensures ReplaceAll(target + s, target, replacement) == replacement + ReplaceAll(s, target, replacement)
  {
    var ts := target + s;
    assert ts[..|target|] == target;
    assert IndexOf(ts, target) == Some(0);
    ReplaceAllAt(ts, target, replacement, 0);
    assert ts[..0] == [] && ts[|target|..] == s;
  }

  /** A prefix in which the target starts nowhere neither adds nor hides an occurrence. */
  lemma ContainsShift(x: string, s: string, t: string)
    requires |t| > 0 && NoStartBefore(x + s, t, |x|)
    ensures Contains(x + s, t) <==> Contains(s, t)
  {
    if Contains(s, t) {
      ContainsAfter(x, s, t, IndexOf(s, t).value);
    }
    if Contains(x + s, t) {
      ContainsWithin(x, s, t, IndexOf(x + s, t).value);
    }
  }

  lemma ContainsAfter(x: string, s: string, t: string, i: nat)
    requires i + |t| <= |s| && s[i..i + |t|] == t
    ensures Contains(x + s, t)
  {
    assert (x + s)[i + |x|..i + |x| + |t|] == s[i..i + |t|];
    ContainsAt(x + s, t, i + |x|);
  }

  lemma ContainsWithin(x: string, s: string, t: string, k: nat)
    requires NoStartBefore(x + s, t, |x|)
    requires OccursAt(x + s, t, k)
    ensures Contains(s, t)
  {
    assert k >= |x|;
    assert s[k - |x|..k - |x| + |t|] == (x + s)[k..k + |t|];
    ContainsAt(s, t, k - |x|);
  }

  /** The character classes trimmed: String.trim's (up to U+0020) and Guava's CharMatcher.whitespace(). */
  datatype Blank = JavaSpace | GuavaSpace

  predicate Dropped(drop: Blank, c: char)
  {
    match drop
    case JavaSpace => c <= ' '
    case GuavaSpace => IsWhitespace(c)
  }

  /** The number of leading characters that satisfy `drop`. */
  function LeadingCount(s: string, drop: Blank): (n: nat)
    ensures n <= |s| && (n < |s| ==> !Dropped(drop, s[n]))
    decreases |s|
  {
    if |s| > 0 && Dropped(drop, s[0]) then 1 + LeadingCount(s[1..], drop) else 0
  }

  /** The number of trailing characters that satisfy `drop`. */
  function TrailingCount(s: string, drop: Blank): (n: nat)
    ensures n <= |s| && (n < |s| ==> !Dropped(drop, s[|s| - 1 - n]))
    decreases |s|
  {
    if |s| > 0 && Dropped(drop, s[|s| - 1]) then 1 + TrailingCount(s[..|s| - 1], drop) else 0
  }

  /** Drops the leading characters that satisfy `drop`. */
  function TrimLeft(s: string, drop: Blank): (r: string)
    ensures |r| > 0 ==> !Dropped(drop, r[0])
  {
    s[LeadingCount(s, drop)..]
  }

  /** A last character that is kept stops the trimming before it. */
  lemma {:induction false} TrimLeftKeepsLast(s: string, drop: Blank)
    requires |s| > 0 && !Dropped(drop, s[|s| - 1])
    ensures |TrimLeft(s, drop)| > 0
    decreases |s|
  {
    if |s| > 1 && Dropped(drop, s[0]) {
      TrimLeftKeepsLast(s[1..], drop);
    }
  }

  /** Drops the trailing characters that satisfy `drop`. */
  function TrimRight(s: string, drop: Blank): (r: string)
    ensures |r| > 0 ==> !Dropped(drop, r[|r| - 1])
  {
    s[..|s| - TrailingCount(s, drop)]
  }

  function Strip(s: string, drop: Blank): string
  {
    TrimRight(TrimLeft(s, drop), drop)
  }

  /** Java's String.trim: every character up to U+0020 counts as space. */
  function JavaTrim(s: string): string
  {
    Strip(s, JavaSpace)
  }

  /** Java's String.isEmpty of the trimmed string. */
  predicate IsBlank(s: string)
  {
    JavaTrim(s) == ""
  }

  /** Java's Character.isWhitespace: Unicode space separators except the no-break spaces, and the listed controls. */
  predicate IsJavaWhitespace(c: char)
  {
    ('\t' <= c <= '\r') || ('\U{001C}' <= c <= '\U{001F}') || c == ' '
    || c == '\U{1680}' || ('\U{2000}' <= c <= '\U{2006}') || ('\U{2008}' <= c <= '\U{200A}')
    || c == '\U{2028}' || c == '\U{2029}' || c == '\U{205F}' || c == '\U{3000}'
  }

  /** Commons Lang's StringUtils.isBlank: empty or only whitespace. */
  predicate IsBlankText(s: string)
  {
    forall k :: 0 <= k < |s| ==> IsJavaWhitespace(s[k])
  }

  /** Guava's CharMatcher.whitespace(), the set used by Splitter.trimResults. */
  predicate IsWhitespace(c: char)
  {
    c == '\t' || c == '\n' || c == '\U{000B}' || c == '\U{000C}' || c == '\r' || c == ' '
    || c == '\U{0085}' || c == '\U{00A0}' || c == '\U{1680}'
    || ('\U{2000}' <= c <= '\U{200A}') || c == '\U{2028}' || c == '\U{2029}'
    || c == '\U{202F}' || c == '\U{205F}' || c == '\U{3000}'
  }

  function GuavaTrim(s: string): string
  {
    Strip(s, GuavaSpace)
  }

  /** Trims every piece and drops the pieces left empty, as a Guava Splitter with trimResults and omitEmptyStrings. */
  function TrimmedNonEmpty(parts: seq<string>): (r: seq<string>)
    ensures |r| <= |parts|
    ensures forall k :: 0 <= k < |r| ==> r[k] != ""
  {
    if parts == [] then []
    else if GuavaTrim(parts[0]) == "" then TrimmedNonEmpty(parts[1..])
    else [GuavaTrim(parts[0])] + TrimmedNonEmpty(parts[1..])
  }

  /** Guava's Splitter.on(sep).trimResults().omitEmptyStrings().split(s). */
  function SplitTrimOmit(s: string, sep: string): seq<string>
    requires |sep| > 0
  {
    TrimmedNonEmpty(SplitOn(s, sep))
  }

  /** No Guava whitespace at either end. */
  predicate GuavaTrimmed(s: string)
  {
    |s| > 0 ==> !IsWhitespace(s[0]) && !IsWhitespace(s[|s| - 1])
  }

  /** trimResults leaves no whitespace at either end and adds no character. */
  lemma GuavaTrimClean(s: string)
    ensures GuavaTrimmed(GuavaTrim(s))
    ensures forall c :: c in GuavaTrim(s) ==> c in s
  {
    var left := TrimLeft(s, GuavaSpace);
    var r := TrimRight(left, GuavaSpace);
    if |r| > 0 {
      assert r[0] == left[0];
    }
    SliceChars(s, |s| - |left|, |s|);
    SliceChars(left, 0, |r|);
  }

  /** A slice holds only characters of the string it is cut from. */
  lemma SliceChars(s: string, a: nat, b: nat)
    requires a <= b <= |s|
    ensures forall c :: c in s[a..b] ==> c in s
  {
    forall c | c in s[a..b] ensures c in s {
      var k :| 0 <= k < b - a && s[a..b][k] == c;
      assert s[a + k] == c;
    }
  }

  /** Trimming a string without whitespace at either end changes nothing. */
  lemma GuavaTrimFixed(s: string)
    requires GuavaTrimmed(s)
    ensures GuavaTrim(s) == s
  {
  }

  /** Pieces that are already trimmed and non-empty pass through unchanged. */
  lemma TrimmedNonEmptyFixed(parts: seq<string>)
    requires forall k :: 0 <= k < |parts| ==> parts[k] != "" && GuavaTrimmed(parts[k])
    ensures TrimmedNonEmpty(parts) == parts
  {
    forall k | 0 <= k < |parts| ensures GuavaTrim(parts[k]) == parts[k] {
      GuavaTrimFixed(parts[k]);
    }
    TrimmedNonEmptyKeeps(parts);
  }

  lemma {:induction false} TrimmedNonEmptyKeeps(parts: seq<string>)
    requires forall k :: 0 <= k < |parts| ==> parts[k] != "" && GuavaTrim(parts[k]) == parts[k]
    ensures TrimmedNonEmpty(parts) == parts
  {
    if parts != [] {
      var rest := parts[1..];
      assert forall k :: 0 <= k < |rest| ==> rest[k] == parts[k + 1];
      TrimmedNonEmptyKeeps(rest);
      assert GuavaTrim(parts[0]) == parts[0] != "";
      assert TrimmedNonEmpty(parts) == [parts[0]] + TrimmedNonEmpty(rest);
      HeadTail(parts);
    }
  }

  /** A non-empty list of pieces is its head followed by its tail. */
  lemma HeadTail(parts: seq<string>)
    requires parts != []
    ensures [parts[0]] + parts[1..] == parts
  {
  }

  /** Every piece is non-empty, trimmed, and made of characters of the input. */
  lemma {:induction false} TrimmedNonEmptyClean(parts: seq<string>)
    ensures forall k :: 0 <= k < |TrimmedNonEmpty(parts)| ==>
      GuavaTrimmed(TrimmedNonEmpty(parts)[k]) &&
      exists j :: 0 <= j < |parts| && forall c :: c in TrimmedNonEmpty(parts)[k] ==> c in parts[j]
  {
    if parts != [] {
      TrimmedNonEmptyClean(parts[1..]);
      GuavaTrimClean(parts[0]);
      var r := TrimmedNonEmpty(parts);
      var rest := TrimmedNonEmpty(parts[1..]);
      forall k | 0 <= k < |r|
        ensures GuavaTrimmed(r[k]) && exists j :: 0 <= j < |parts| && forall c :: c in r[k] ==> c in parts[j]
      {
        if GuavaTrim(parts[0]) != "" && k == 0 {
          assert forall c :: c in r[0] ==> c in parts[0];
        } else {
          var k' := if GuavaTrim(parts[0]) == "" then k else k - 1;
          assert r[k] == rest[k'];
          var j :| 0 <= j < |parts[1..]| && forall c :: c in rest[k'] ==> c in parts[1..][j];
          assert parts[1..][j] == parts[j + 1];
        }
      }
    }
  }

  function LowerChar(c: char): char
  {
    if 'A' <= c <= 'Z' then (c as int + 32) as char else c
  }

  function UpperChar(c: char): char
  {
    if 'a' <= c <= 'z' then (c as int - 32) as char else c
  }

  function ToLower(s: string): (r: string)
    ensures |r| == |s|
  {
    seq(|s|, i requires 0 <= i < |s| => LowerChar(s[i]))
  }

  function ToUpper(s: string): (r: string)
    ensures |r| == |s|
  {
    seq(|s|, i requires 0 <= i < |s| => UpperChar(s[i]))
  }

  /** Java's equalsIgnoreCase, with case folding restricted to ASCII letters. */
  predicate EqualsIgnoreCase(a: string, b: string)
  {
    ToLower(a) == ToLower(b)
  }

  /** Strings whose first letters differ in lower case are not equal ignoring case. */
  lemma FirstLowerDiffers(a: string, b: string)
    requires a != [] && b != [] && LowerChar(a[0]) != LowerChar(b[0])
    ensures !EqualsIgnoreCase(a, b)
  {
    assert ToLower(a)[0] != ToLower(b)[0];
  }

  /** Decimal rendering of an integer, as Java's toString. */
  function DigitChar(d: nat): char
    requires d < 10
  {
    ['0', '1', '2', '3', '4', '5', '6', '7', '8', '9'][d]
  }

  function NatToString(n: nat): (r: string)
    ensures |r| >= 1
    decreases n
  {
    if n < 10 then [DigitChar(n)] else NatToString(n / 10) + [DigitChar(n % 10)]
  }

  /** A number is written in decimal digits only. */
  lemma {:induction false} DigitsOnly(n: nat)
    ensures forall k :: 0 <= k < |NatToString(n)| ==> '0' <= NatToString(n)[k] <= '9'
    decreases n
  {
    if n >= 10 {
      DigitsOnly(n / 10);
    }
  }

  function IntToString(i: int): string
  {
    if i < 0 then "-" + NatToString(-i) else NatToString(i)
  }

  /** Removes every character satisfying `drop`, keeping order. */
  function RemoveChars(s: string, drop: char -> bool): (r: string)
    ensures |r| <= |s|
    ensures forall k :: 0 <= k < |r| ==> !drop(r[k])
  {
    if s == [] then []
    else if drop(s[0]) then RemoveChars(s[1..], drop)
    else [s[0]] + RemoveChars(s[1..], drop)
  }

  /** Every occurrence of the character c becomes r: String.replace for a one-character target. */
  function ReplaceChar(s: string, c: char, r: string): string
  {
    if s == [] then [] else (if s[0] == c then r else [s[0]]) + ReplaceChar(s[1..], c, r)
  }

  lemma {:induction false} ReplaceAllChar(s: string, c: char, r: string)
    ensures ReplaceAll(s, [c], r) == ReplaceChar(s, c, r)
  {
    if s == [] {
      assert !Contains("", [c]);
      ReplaceAbsent("", [c], r);
    } else {
      ReplaceAllChar(s[1..], c, r);
      if s[0] == c {
        assert s == [c] + s[1..];
        ReplaceAtStart([c], s[1..], r);
      } else {
        assert !OccursAt(s, [c], 0);
        ReplaceCons(s, [c], r);
      }
    }
  }

  lemma {:induction false} ReplaceCharAppend(a: string, b: string, c: char, r: string)
    ensures ReplaceChar(a + b, c, r) == ReplaceChar(a, c, r) + ReplaceChar(b, c, r)
  {
    if a == [] {
      assert a + b == b;
    } else {
      assert (a + b)[1..] == a[1..] + b;
      ReplaceCharAppend(a[1..], b, c, r);
    }
  }

  /** A one-character separator occurs in s exactly when the character does. */
  lemma ContainsChar(s: string, c: char)
    ensures Contains(s, [c]) <==> c in s
  {
    if Contains(s, [c]) {
      var i := IndexOf(s, [c]).value;
      assert s[i..i + 1] == [c];
      assert s[i] == c;
    }
    if c in s {
      var j :| 0 <= j < |s| && s[j] == c;
      assert s[j..j + 1] == [c];
      ContainsAt(s, [c], j);
    }
  }

  /** No piece of a split on one character holds that character. */
  lemma SplitCharPiecesFree(s: string, c: char)
    ensures forall k :: 0 <= k < |SplitOn(s, [c])| ==> c !in SplitOn(s, [c])[k]
  {
    SplitOnPiecesFree(s, [c]);
    forall k | 0 <= k < |SplitOn(s, [c])|
      ensures c !in SplitOn(s, [c])[k]
    {
      ContainsChar(SplitOn(s, [c])[k], c);
    }
  }

  lemma {:induction false} JoinConcat(p: seq<string>, q: seq<string>, sep: string)
    requires |p| >= 1 && |q| >= 1
    ensures Join(p + q, sep) == Join(p, sep) + sep + Join(q, sep)
  {
    if |p| == 1 {
      assert (p + q)[0] == p[0] && (p + q)[1..] == q;
    } else {
      assert (p + q)[0] == p[0] && (p + q)[1..] == p[1..] + q;
      JoinConcat(p[1..], q, sep);
    }
  }

  /** Splitting on c around one occurrence of c: the pieces of the left side, then those of the right. */
  lemma SplitCharConcat(a: string, b: string, c: char)
    ensures SplitOn(a + [c] + b, [c]) == SplitOn(a, [c]) + SplitOn(b, [c])
  {
    var pa := SplitOn(a, [c]);
    var pb := SplitOn(b, [c]);
    JoinSplitOn(a, [c]);
    JoinSplitOn(b, [c]);
    SplitCharPiecesFree(a, c);
    SplitCharPiecesFree(b, c);
    JoinConcat(pa, pb, [c]);
    var all := pa + pb;
    forall k | 0 <= k < |all|
      ensures c !in all[k]
    {
      if k >= |pa| {
        assert all[k] == pb[k - |pa|];
      }
    }
    SplitJoinChar(all, c);
  }

  /** Joining two or more pieces writes the separator. */
  lemma JoinManyHasSep(parts: seq<string>, c: char)
    requires |parts| >= 2
    ensures c in Join(parts, [c])
  {
    assert Join(parts, [c]) == parts[0] + [c] + Join(parts[1..], [c]);
    assert Join(parts, [c])[|parts[0]|] == c;
  }
}
