/** String examples of Strings.h: Trim, the substring operations and
    clear() checked in StringBasics, and the C-string copy loop of
    CStyleStrings. Characters are chars; the whitespace test is isspace in
    the "C" locale. */
module Strings {
  import opened Options
  import Algorithms

  /** isspace: space, \t, \n, \v, \f and \r. */
  predicate IsSpace(c: char) {
    c == ' ' || c == '\t' || c == '\n' || c == '\U{000B}' || c == '\U{000C}' || c == '\r'
  }

  predicate AllSpace(s: string) {
    forall k :: 0 <= k < |s| ==> IsSpace(s[k])
  }

  /** find_if_not(begin(s), end(s), isspace), as an index: the first
      non-space character, or |s| when there is none. */
  function Front(s: string): (f: nat)
    ensures f <= |s|
    ensures f < |s| ==> !IsSpace(s[f])
    ensures forall k :: 0 <= k < f ==> IsSpace(s[k])
  {
    Algorithms.FindIf(s, 0, c => !IsSpace(c))
  }

  /** find_if_not(rbegin(s), rend(s), isspace).base(), as an index within
      s[..upTo]: one past the last non-space character, or 0 (begin) when
      there is none. */
  function BackBase(s: string, upTo: nat): (b: nat)
    requires upTo <= |s|
    ensures b <= upTo
    ensures b > 0 ==> !IsSpace(s[b - 1])
    ensures forall k :: b <= k < upTo ==> IsSpace(s[k])
    decreases upTo
  {
    if upTo == 0 then 0
    else if !IsSpace(s[upTo - 1]) then upTo
    else BackBase(s, upTo - 1)
  }

  /** Trim as written: string{front, back.base()}. The range is reversed,
      and so invalid, exactly when s is non-empty and all whitespace; that
      case is None. */
  function TrimAsWritten(s: string): (r: Option<string>)
    ensures r.None? <==> s != [] && AllSpace(s)
  {
    var f, b := Front(s), BackBase(s, |s|);
    if f <= b then Some(s[f..b]) else None
  }

  /** The smallest input that shows it: a single blank. */
  lemma TrimAsWrittenBlank()
    ensures TrimAsWritten(" ") == None
  {
  }

  /** Trim with the all-whitespace case giving the empty string. */
  function Trim(s: string): (r: string)
    ensures |r| <= |s|
  {
    var f, b := Front(s), BackBase(s, |s|);
    if f <= b then s[f..b] else []
  }

  /** Wherever Trim as written is defined it agrees with Trim. */
  lemma TrimAgrees(s: string)
    ensures TrimAsWritten(s).Some? ==> TrimAsWritten(s).value == Trim(s)
    ensures TrimAsWritten(s).None? ==> Trim(s) == []
  {
  }

  /** Trim keeps exactly the slice between the first and last non-space
      characters, interior whitespace included, and drops only whitespace
      around it. */
  lemma TrimIsCore(s: string)
    ensures exists i, j :: (0 <= i <= j <= |s| && Trim(s) == s[i..j] &&
      AllSpace(s[..i]) && AllSpace(s[j..]))
    ensures Trim(s) != [] ==> !IsSpace(Trim(s)[0]) && !IsSpace(Trim(s)[|Trim(s)| - 1])
    ensures Trim(s) == [] <==> AllSpace(s)
  {
    var f, b := Front(s), BackBase(s, |s|);
    if f <= b {
      assert Trim(s) == s[f..b];
      assert AllSpace(s[..f]);
      assert AllSpace(s[b..]);
      if f < b {
        assert !IsSpace(s[f]);
      }
    } else {
      assert f == |s|;
      assert Trim(s) == s[|s|..|s|];
      assert s[..|s|] == s;
    }
  }

  /** Trimming twice trims no more. */
  lemma TrimIdempotent(s: string)
    ensures Trim(Trim(s)) == Trim(s)
  {
    var t := Trim(s);
    TrimIsCore(s);
    if t != [] {
      assert Front(t) == 0;
      assert BackBase(t, |t|) == |t|;
      assert t[0..|t|] == t;
    }
  }

  /** StringBasics: Trim(" \t zzz \r\n ") == "zzz". */
  lemma TrimDemo()
    ensures Trim(" \t zzz \r\n ") == "zzz"
    ensures TrimAsWritten(" \t zzz \r\n ") == Some("zzz")
  {
    var s := " \t zzz \r\n ";
    assert s[0] == ' ' && s[1] == '\t' && s[2] == ' ' && s[3] == 'z';
    assert s[5] == 'z' && s[6] == ' ' && s[7] == '\r' && s[8] == '\n' && s[9] == ' ';
    assert Front(s) == 3;
    assert BackBase(s, 7) == 6;
    assert BackBase(s, 9) == 6;
    assert BackBase(s, |s|) == 6;
    assert s[3..6] == "zzz";
  }

  /** size_t's maximum, std::string::npos. */
  const NPos: nat := 0xFFFF_FFFF_FFFF_FFFF

  /** string::find(c): the first position holding c, or npos. */
  function Find(s: string, c: char): (pos: nat)
    requires |s| < NPos
    ensures pos == NPos || (pos < |s| && s[pos] == c)
    ensures pos == NPos <==> c !in s
    ensures forall k :: 0 <= k < |s| && k < pos ==> s[k] != c
  {
    var i := Algorithms.FindIf(s, 0, x => x == c);
    if i < |s| then i else NPos
  }

  /** string(s, pos, count) and s.substr(pos, count): at most `count`
      characters from `pos`; a position past the end throws out_of_range,
      which is None. */
  function Substr(s: string, pos: nat, count: nat := NPos): (r: Option<string>)
    ensures r.None? <==> pos > |s|
    ensures r.Some? ==> |r.value| == (if count < |s| - pos then count else |s| - pos)
    ensures r.Some? ==> forall k :: 0 <= k < |r.value| ==> r.value[k] == s[pos + k]
  {
    if pos > |s| then None
    else if count < |s| - pos then Some(s[pos..pos + count])
    else Some(s[pos..])
  }

  /** The substring checks of StringBasics. */
  lemma SubstrDemos()
    ensures Substr("abcdef", 2, 3) == Some("cde")
    ensures Find("A" + "@" + "B", '@') == 1
    ensures Substr("A@B", Find("A@B", '@')) == Some("@B")
  {
    assert "abcdef"[2..5] == "cde";
    assert "A" + "@" + "B" == "A@B";
    assert "A@B"[1] == '@' && "A@B"[0] != '@';
  }

  /** A searched-for character that is missing makes substr throw. */
  lemma SubstrOfMissing(s: string, c: char)
    requires |s| < NPos && c !in s
    ensures Substr(s, Find(s, c)).None?
  {
  }

  /** A std::string object; clear() empties it. */
  class StdString {
    var chars: string

    constructor (init: string)
      ensures chars == init
    {
      chars := init;
    }

    /** size(): with no embedded null character, what strlen(c_str())
        finds. */
    function Size(): (n: nat)
      reads this
      ensures '\0' !in chars ==> n == Strlen(CStr())
    {
      |chars|
    }

    predicate Empty()
      reads this
      ensures Empty() <==> Size() == 0
    {
      chars == []
    }

    /** c_str(): the characters followed by the null terminator. */
    function CStr(): (c: seq<char>)
      reads this
      ensures |c| == |chars| + 1 && c[..|chars|] == chars && c[|chars|] == '\0'
      ensures '\0' !in chars ==> Strlen(c) == |chars|
    {
      chars + ['\0']
    }

    method Clear()
      modifies this
      ensures chars == []
    {
      chars := [];
    }
  }

  /** strlen: the position of the first null character. */
  function Strlen(s: seq<char>): (n: nat)
    requires '\0' in s
    ensures n < |s| && s[n] == '\0'
    ensures forall k :: 0 <= k < n ==> s[k] != '\0'
  {
    if s[0] == '\0' then 0
    else
      assert '\0' in s[1..];
      Strlen(s[1..]) + 1
  }

  /** StringBasics after clear(): empty, size 0, and c_str() compares equal
      to "" because its terminator comes first. */
  method ClearDemo() returns (empty: bool, size: nat, cLength: nat)
    ensures empty && size == 0 && cLength == 0
  {
    var s := new StdString("abc");
    s.Clear();
    empty := s.Empty();
    size := s.Size();
    cLength := Strlen(s.CStr());
  }

  /** The copy loop `for (i = 0; (dst[i] = src[i]) != '\0'; i++);`: copies
      src up to and including its terminator and writes nothing else. The
      destination must be long enough. */
  method CopyCString(dst: array<char>, src: array<char>)
    requires '\0' in src[..] && Strlen(src[..]) < dst.Length
    requires dst != src
    modifies dst
    ensures dst[..Strlen(src[..]) + 1] == src[..Strlen(src[..]) + 1]
    ensures dst[Strlen(src[..]) + 1..] == old(dst[Strlen(src[..]) + 1..])
  {
    ghost var text, n := src[..], Strlen(src[..]);
    var i := 0;
    dst[i] := src[i];
    while dst[i] != '\0'
      invariant 0 <= i <= n
      invariant dst[..i + 1] == text[..i + 1]
      invariant dst[n + 1..] == old(dst[n + 1..])
      decreases n - i
    {
      assert text[i] != '\0';
      i := i + 1;
      dst[i] := src[i];
    }
  }

  /** `char a[] = "..."`: a new array holding the characters. */
  method NewCharArray(text: seq<char>) returns (a: array<char>)
    ensures fresh(a) && a[..] == text
  {
    a := new char[|text|](i requires 0 <= i < |text| => text[i]);
  }

  /** strlen("abcde") is 5: the first null is the sixth character. */
  lemma StrlenDemo()
    ensures Strlen("abcde\0") == 5
    ensures "abcde\0"[..5] == "abcde"
  {
    var s := "abcde\0";
    assert s[5] == '\0';
  }

  /** CStyleStrings: copying "abcde" into a 20-character buffer gives
      "abcde", and strlen of the source is 5. */
  method CopyDemo() returns (copied: seq<char>, len: nat)
    ensures copied == "abcde" && len == 5
  {
    var dst := new char[20](_ => 'x');
    var src := NewCharArray("abcde\0");
    StrlenDemo();
    CopyCString(dst, src);
    len := Strlen(src[..]);
    copied := dst[..len];
  }
}
