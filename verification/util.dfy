/**
 * The string helpers of util.c.  A C string is modelled by the characters
 * before its terminator, so none of them is NUL; a pointer into a string is
 * the index it points at, and NULL is `None`.  A buffer the source changes
 * in place (`lcase`, `strrev`) is an `array<char>` of the string's
 * characters.  Letters are the ASCII letters of the "C" locale.
 */
module Util {
  import opened Wrappers

  // ---------------------------------------------------------------------------
  // lcase
  // ---------------------------------------------------------------------------

  /** `isalpha(c) && isupper(c)` in the "C" locale. */
  predicate IsUpper(c: char)
  {
    'A' <= c <= 'Z'
  }

  /** `tolower` in the "C" locale, on an upper-case letter. */
  function ToLower(c: char): char
  {
    if IsUpper(c) then (c as int + 32) as char else c
  }

  /** The string `lcase` leaves behind. */
  function Lowered(s: string): string
  {
    seq(|s|, i requires 0 <= i < |s| => ToLower(s[i]))
  }

  /** `lcase` keeps the length, turns every upper-case letter into the
      matching lower-case letter, leaves every other character alone, leaves
      no upper-case letter, and changes nothing a second time. */
  lemma LoweredFacts(s: string)
    ensures |Lowered(s)| == |s|
    ensures forall i :: 0 <= i < |s| && IsUpper(s[i]) ==> Lowered(s)[i] as int == s[i] as int + 32
    ensures forall i :: 0 <= i < |s| && !IsUpper(s[i]) ==> Lowered(s)[i] == s[i]
    ensures forall i :: 0 <= i < |s| ==> !IsUpper(Lowered(s)[i])
    ensures Lowered(Lowered(s)) == Lowered(s)
  {
  }

  /** `lcase(s)`: lower-cases the string in place and returns its argument. */
  method LCase(s: array<char>) returns (r: array<char>)
    modifies s
    ensures r == s
    ensures s[..] == Lowered(old(s[..]))
  {
    var i := 0;
    while i < s.Length
      invariant 0 <= i <= s.Length
      invariant forall k :: 0 <= k < i ==> s[k] == ToLower(old(s[k]))
      invariant forall k :: i <= k < s.Length ==> s[k] == old(s[k])
    {
      if IsUpper(s[i]) {
        s[i] := ToLower(s[i]);
      }
      i := i + 1;
    }
    return s;
  }

  // ---------------------------------------------------------------------------
  // strrev
  // ---------------------------------------------------------------------------

  /** The characters of `s` in the opposite order. */
  function Reverse(s: string): (r: string)
    ensures |r| == |s|
    ensures forall i :: 0 <= i < |s| ==> r[i] == s[|s| - 1 - i]
  {
    if s == [] then [] else Reverse(s[1..]) + [s[0]]
  }

  /** Reversing twice gives the string back. */
  lemma ReverseReverse(s: string)
    ensures Reverse(Reverse(s)) == s
  {
  }

  /** `strrev(str)`: swaps characters from both ends towards the middle, in
      place, and (as intended; see ReplaceExtensionAsWritten) returns its
      argument.  On the empty string the end pointer starts before the
      start, so nothing is swapped. */
  method StrRev(s: array<char>) returns (r: array<char>)
    modifies s
    ensures r == s
    ensures s[..] == Reverse(old(s[..]))
  {
    var lo, hi := 0, s.Length - 1;
    while lo < hi
      invariant 0 <= lo && hi == s.Length - 1 - lo && lo <= hi + 2
      invariant forall k :: 0 <= k < lo ==> s[k] == old(s[s.Length - 1 - k]) && s[s.Length - 1 - k] == old(s[k])
      invariant forall k :: lo <= k <= hi ==> s[k] == old(s[k])
    {
      s[lo], s[hi] := s[hi], s[lo];
      lo, hi := lo + 1, hi - 1;
    }
    return s;
  }

  // ---------------------------------------------------------------------------
  // concat
  // ---------------------------------------------------------------------------

  /** `concat(str1, str2)`: a fresh string holding `str1` followed by `str2`. */
  function Concat(str1: string, str2: string): (r: string)
    ensures |r| == |str1| + |str2|
    ensures r[..|str1|] == str1 && r[|str1|..] == str2
  {
    str1 + str2
  }

  // ---------------------------------------------------------------------------
  // find_first_not_of, find_first_of
  // ---------------------------------------------------------------------------

  /** Offset of the first character of `s` that is not in `chars`, or `|s|`. */
  function FirstNotIn(s: string, chars: string): (k: nat)
    ensures k <= |s|
    ensures forall i :: 0 <= i < k ==> s[i] in chars
    ensures k < |s| ==> s[k] !in chars
  {
    if s == [] || s[0] !in chars then 0 else 1 + FirstNotIn(s[1..], chars)
  }

  /** Offset of the first character of `s` that is in `chars`, or `|s|`. */
  function FirstIn(s: string, chars: string): (k: nat)
    ensures k <= |s|
    ensures forall i :: 0 <= i < k ==> s[i] !in chars
    ensures k < |s| ==> s[k] in chars
  {
    if s == [] || s[0] in chars then 0 else 1 + FirstIn(s[1..], chars)
  }

  /** `find_first_not_of(str, set)`: NULL for NULL, otherwise the position of
      the first character not in `chars`, or of the terminator. */
  method FindFirstNotOf(str: Option<string>, chars: string) returns (r: Option<nat>)
    ensures str == None ==> r == None
    ensures str != None ==> r == Some(FirstNotIn(str.value, chars))
  {
    if str == None {
      return None;
    }
    var s := str.value;
    var k := 0;
    while k < |s| && s[k] in chars
      invariant 0 <= k <= |s|
      invariant forall i :: 0 <= i < k ==> s[i] in chars
    {
      k := k + 1;
    }
    FirstNotInUnique(s, chars, k);
    return Some(k);
  }

  /** `find_first_of(str, set)`: NULL for NULL, otherwise the position of the
      first character in `chars`, or of the terminator. */
  method FindFirstOf(str: Option<string>, chars: string) returns (r: Option<nat>)
    ensures str == None ==> r == None
    ensures str != None ==> r == Some(FirstIn(str.value, chars))
  {
    if str == None {
      return None;
    }
    var s := str.value;
    var k := 0;
    while k < |s| && s[k] !in chars
      invariant 0 <= k <= |s|
      invariant forall i :: 0 <= i < k ==> s[i] !in chars
    {
      k := k + 1;
    }
    FirstInUnique(s, chars, k);
    return Some(k);
  }

  /** The offset a scan stops at is the one FirstNotIn names. */
  lemma {:induction false} FirstNotInUnique(s: string, chars: string, k: nat)
    requires k <= |s|
    requires forall i :: 0 <= i < k ==> s[i] in chars
    requires k < |s| ==> s[k] !in chars
    ensures FirstNotIn(s, chars) == k
    decreases k
  {
    if k > 0 {
      FirstNotInUnique(s[1..], chars, k - 1);
    }
  }

  /** The offset a scan stops at is the one FirstIn names. */
  lemma {:induction false} FirstInUnique(s: string, chars: string, k: nat)
    requires k <= |s|
    requires forall i :: 0 <= i < k ==> s[i] !in chars
    requires k < |s| ==> s[k] in chars
    ensures FirstIn(s, chars) == k
    decreases k
  {
    if k > 0 {
      FirstInUnique(s[1..], chars, k - 1);
    }
  }

  // ---------------------------------------------------------------------------
  // truncate_to, remove_extension
  // ---------------------------------------------------------------------------

  /** `strchr(s, c)` for a character other than NUL. */
  function FirstIndex(s: string, c: char): (r: Option<nat>)
    ensures r == None <==> c !in s
    ensures r != None ==> r.value < |s| && s[r.value] == c && c !in s[..r.value]
  {
    if s == [] then None
    else if s[0] == c then Some(0)
    else match FirstIndex(s[1..], c)
      case None => None
      case Some(k) => Some(k + 1)
  }

  /** `strrchr(s, c)` for a character other than NUL. */
  function LastIndex(s: string, c: char): (r: Option<nat>)
    ensures r == None <==> c !in s
    ensures r != None ==> r.value < |s| && s[r.value] == c && c !in s[r.value + 1..]
  {
    if s == [] then None
    else if s[|s| - 1] == c then Some(|s| - 1)
    else
      assert s == s[..|s| - 1] + [s[|s| - 1]];
      LastIndex(s[..|s| - 1], c)
  }

  /** `truncate_to(str, c, from_end)`: the part of `str` before the last
      (`fromEnd`) or first occurrence of `c`; all of `str` when `c` does not
      occur; NULL when that occurrence is the first character.  `strchr` and
      `strrchr` find a NUL `c` at the terminator. */
  function TruncateTo(str: string, c: char, fromEnd: bool): (r: Option<string>)
    ensures c == '\0' ==> r == if str == [] then None else Some(str)
    ensures c != '\0' && c !in str ==> r == Some(str)
    ensures c != '\0' && c in str && !fromEnd ==>
      (r == None <==> str[0] == c) &&
      (r != None ==> |r.value| < |str| && r.value == str[..|r.value|] && str[|r.value|] == c && c !in r.value)
    ensures c != '\0' && c in str && fromEnd ==>
      (r == None <==> str[0] == c && c !in str[1..]) &&
      (r != None ==> |r.value| < |str| && r.value == str[..|r.value|] && str[|r.value|] == c
                     && c !in str[|r.value| + 1..])
  {
    assert str[..|str|] == str;
    var at := if c == '\0' then Some(|str|) else if fromEnd then LastIndex(str, c) else FirstIndex(str, c);
    match at
      case None => Some(str)
      case Some(k) => if k == 0 then None else Some(str[..k])
  }

  /** `remove_extension(path)`: the path before its last '.'; all of it when
      it has none; NULL when its only '.' is the first character. */
  function RemoveExtension(path: string): (r: Option<string>)
    ensures '.' !in path ==> r == Some(path)
    ensures '.' in path ==> (r == None <==> path[0] == '.' && '.' !in path[1..])
    ensures '.' in path && r != None ==>
      |r.value| < |path| && path == r.value + path[|r.value|..] && path[|r.value|] == '.'
      && '.' !in path[|r.value| + 1..]
  {
    TruncateTo(path, '.', true)
  }

  /** remove_extension("test/fifo.txt") is "test/fifo". */
  lemma RemoveExtensionExample()
    ensures RemoveExtension("test/fifo.txt") == Some("test/fifo")
  {
    var p := "test/fifo.txt";
    assert p[9] == '.' && '.' !in p[10..];
    assert p[..9] == "test/fifo";
  }

  // ---------------------------------------------------------------------------
  // replace_extension
  // ---------------------------------------------------------------------------

  /** `s` ends with `x`. */
  predicate EndsWith(s: string, x: string)
  {
    |x| <= |s| && s[|s| - |x|..] == x
  }

  /** The reversed `x` begins the reversed `s` exactly when `s` ends with `x`:
      the test `replace_extension` makes with `strstr`. */
  lemma ReversedPrefix(s: string, x: string)
    ensures Reverse(x) <= Reverse(s) <==> EndsWith(s, x)
  {
    var rs, rx := Reverse(s), Reverse(x);
    if rx <= rs {
      assert forall i :: 0 <= i < |x| ==> s[|s| - |x|..][i] == rx[|x| - 1 - i] == x[i];
    }
    if EndsWith(s, x) {
      assert forall i :: 0 <= i < |x| ==> rx[i] == x[|x| - 1 - i] == s[|s| - 1 - i];
    }
  }

  /** `replace_extension(path, oldext, newext)` as intended: `path` with a
      trailing `oldext` replaced by `newext`, or `path` followed by `newext`
      when it does not end with `oldext`.  The test compares the reversed
      copies, as the source does. */
  function ReplaceExtension(path: string, oldext: string, newext: string): (r: string)
    ensures EndsWith(path, oldext) ==> r == path[..|path| - |oldext|] + newext
    ensures !EndsWith(path, oldext) ==> r == path + newext
  {
    ReversedPrefix(path, oldext);
    if Reverse(oldext) <= Reverse(path) then path[..|path| - |oldext|] + newext else path + newext
  }

  /** The result always ends with the new extension, and replacing it back
      restores a path that ended with the old one. */
  lemma ReplaceExtensionRoundTrip(path: string, oldext: string, newext: string)
    ensures EndsWith(ReplaceExtension(path, oldext, newext), newext)
    ensures EndsWith(path, oldext) ==>
      ReplaceExtension(ReplaceExtension(path, oldext, newext), newext, oldext) == path
  {
    var r := ReplaceExtension(path, oldext, newext);
    assert r[|r| - |newext|..] == newext;
    if EndsWith(path, oldext) {
      var stem := path[..|path| - |oldext|];
      assert r[..|r| - |newext|] == stem;
      assert stem + oldext == path;
    }
  }

  /** `replace_extension` as written.  `strrev` ends without a `return`, so
      the two values the `strstr` test compares are indeterminate: they are
      the parameters `revPath` and `revOld`.  In the first branch `strncpy`
      copies the stem without a terminator into a fresh block whose other
      bytes are `block`, and `strcat` appends `newext` at the first NUL it
      finds from the start of the block: None when that NUL lies beyond the
      stem, so that `strcat` writes past the block, or when the stem length
      wraps around.  The block fits only when its first byte happens to be
      NUL. */
  function ReplaceExtensionAsWritten(path: string, oldext: string, newext: string,
                                     revPath: string, revOld: string, block: seq<char>): (r: Option<string>)
    requires |block| == |newext| + 1
    ensures r != None ==> EndsWith(r.value, newext)
    ensures !(revOld <= revPath) ==> r == Some(path + newext)
    ensures revOld <= revPath && |oldext| <= |path| && '\0' !in path ==>
      (r != None <==> block[0] == '\0') &&
      (r != None ==> r.value == path[..|path| - |oldext|] + newext)
  {
    if revOld <= revPath then
      if |path| < |oldext| then None
      else
        var n := |path| - |oldext|;
        var buffer := path[..n] + block;
        assert buffer[n] == block[0] && buffer[..n] == path[..n];
        match FirstIndex(buffer, '\0')
          case None => None
          case Some(k) =>
            if k <= n then Some(buffer[..k] + newext)
            else assert buffer[..k][n] == buffer[n]; None
    else
      Some(path + newext)
  }

  /** When `strrev` happens to leave the reversed copies and the fresh block
      happens to start with a NUL, the code as written gives the intended
      result. */
  lemma ReplaceExtensionLucky(path: string, oldext: string, newext: string, block: seq<char>)
    requires |block| == |newext| + 1 && block[0] == '\0' && '\0' !in path
    ensures ReplaceExtensionAsWritten(path, oldext, newext, Reverse(path), Reverse(oldext), block)
      == Some(ReplaceExtension(path, oldext, newext))
  {
    ReversedPrefix(path, oldext);
    if EndsWith(path, oldext) {
      var n := |path| - |oldext|;
      var buffer := path[..n] + block;
      assert '\0' !in buffer[..n];
      assert buffer[n] == '\0';
      assert buffer[..n] == path[..n];
    }
  }

  /** FirstIndex finds the first occurrence. */
  lemma FirstIndexAt(s: string, c: char, k: nat)
    requires k < |s| && s[k] == c && c !in s[..k]
    ensures FirstIndex(s, c) == Some(k)
  {
  }

  /** When the value taken for the reversed `oldext` is not a prefix of the
      value taken for the reversed path, a trailing extension is not
      recognised: "f.c" with ".c" replaced by ".h" becomes "f.c.h" instead
      of "f.h". */
  lemma UnreturnedReverse()
    ensures ReplaceExtensionAsWritten("f.c", ".c", ".h", "", "x", "\0\0\0") == Some("f.c.h")
    ensures ReplaceExtension("f.c", ".c", ".h") == "f.h"
  {
    var p := "f.c";
    assert !("x" <= "");
    assert p + ".h" == "f.c.h";
    assert EndsWith(p, ".c") by { assert p[1..] == ".c"; }
    assert p[..1] == "f";
  }

  /** With the reversed copies right but a fresh block that does not start
      with a NUL, `strcat` finds its NUL beyond the stem and writes the new
      extension past the end of the block: "f.c" with ".c" replaced by ".h"
      overruns its block instead of giving "f.h". */
  lemma UnterminatedStem()
    ensures ReplaceExtensionAsWritten("f.c", ".c", ".h", Reverse("f.c"), Reverse(".c"), "Z\0\0") == None
    ensures ReplaceExtension("f.c", ".c", ".h") == "f.h"
  {
    var p := "f.c";
    assert EndsWith(p, ".c") by { assert p[1..] == ".c"; }
    ReversedPrefix(p, ".c");
    var buffer := p[..1] + "Z\0\0";
    assert buffer == "fZ\0\0";
    FirstIndexAt(buffer, '\0', 2);
    assert p[..1] == "f";
  }
}
