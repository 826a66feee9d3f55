/** Text handling and result types shared by the other modules. */
module Common {

  datatype Option<+T> = None | Some(value: T)

  datatype Result<+T, +E> = Ok(value: T) | Err(error: E)

  /** The characters that Python's `str.isspace` and the regular expression `\s` accept. */
  predicate IsSpace(c: char) {
    || '\t' <= c <= '\r'
    || '\U{1c}' <= c <= ' '
    || c == '\U{85}' || c == '\U{a0}' || c == '\U{1680}'
    || '\U{2000}' <= c <= '\U{200a}'
    || c == '\U{2028}' || c == '\U{2029}' || c == '\U{202f}' || c == '\U{205f}' || c == '\U{3000}'
  }

  function StripLeft(s: string): (r: string)
    ensures r == "" || !IsSpace(r[0])
    ensures |r| <= |s| && s[|s| - |r|..] == r
  {
    if s != "" && IsSpace(s[0]) then StripLeft(s[1..]) else s
  }

  function StripRight(s: string): (r: string)
    ensures r == "" || !IsSpace(r[|r| - 1])
    ensures |r| <= |s| && s[..|r|] == r
  {
    if s != "" && IsSpace(s[|s| - 1]) then StripRight(s[..|s| - 1]) else s
  }

  /** `str.strip()`. */
  function Strip(s: string): (r: string)
    ensures r == "" || (!IsSpace(r[0]) && !IsSpace(r[|r| - 1]))
    ensures |r| <= |s|
  {
    StripRight(StripLeft(s))
  }

  predicate AllSpaces(s: string) { forall i :: 0 <= i < |s| ==> IsSpace(s[i]) }

  /** `text` is `core` between spaces, and `core` neither begins nor ends with one. */
  ghost predicate Padded(text: string, core: string) {
    && (core != "" ==> !IsSpace(core[0]) && !IsSpace(core[|core| - 1]))
    && exists a, b :: AllSpaces(a) && AllSpaces(b) && text == a + core + b
  }

  lemma {:induction false} StripLeftDrops(s: string)
    ensures AllSpaces(s[..|s| - |StripLeft(s)|])
  {
    if s != "" && IsSpace(s[0]) {
      StripLeftDrops(s[1..]);
      assert s[..|s| - |StripLeft(s)|] == [s[0]] + s[1..][..|s| - 1 - |StripLeft(s)|];
    }
  }

  lemma {:induction false} StripRightDrops(s: string)
    ensures AllSpaces(s[|StripRight(s)|..])
  {
    if s != "" && IsSpace(s[|s| - 1]) {
      StripRightDrops(s[..|s| - 1]);
      assert s[|StripRight(s)|..] == s[..|s| - 1][|StripRight(s)|..] + [s[|s| - 1]];
    }
  }

  lemma AllSpacesConcat(a: string, core: string, b: string)
    ensures AllSpaces(a + core + b) <==> AllSpaces(a) && AllSpaces(core) && AllSpaces(b)
  {
    var s := a + core + b;
    assert forall i :: 0 <= i < |a| ==> s[i] == a[i];
    assert forall i :: 0 <= i < |core| ==> s[|a| + i] == core[i];
    assert forall i :: 0 <= i < |b| ==> s[|a| + |core| + i] == b[i];
  }

  lemma StripParts(s: string) returns (a: string, b: string)
    ensures AllSpaces(a) && AllSpaces(b) && s == a + Strip(s) + b
  {
    hide AllSpaces, IsSpace, StripLeft, StripRight;
    var left := StripLeft(s);
    var r := StripRight(left);
    a, b := s[..|s| - |left|], left[|r|..];
    StripLeftDrops(s);
    StripRightDrops(left);
    assert left == r + b;
  }

  /** `strip` takes the spaces off both ends, and nothing else. */
  lemma StripMeaning(s: string)
    ensures Padded(s, Strip(s))
    ensures Strip(s) == "" <==> AllSpaces(s)
  {
    hide AllSpaces, IsSpace, Strip;
    var a, b := StripParts(s);
    AllSpacesConcat(a, Strip(s), b);
    EdgesOnly(Strip(s));
  }

  /** A text that has no space at its edges is all spaces only when it is empty. */
  lemma EdgesOnly(r: string)
    requires r == "" || !IsSpace(r[0])
    ensures AllSpaces(r) <==> r == ""
  {
  }

  /** Lower case over the ASCII letters. */
  function Lower(s: string): (r: string)
    ensures |r| == |s|
    ensures forall i :: 0 <= i < |r| ==> !('A' <= r[i] <= 'Z')
    ensures forall i :: 0 <= i < |r| ==> if 'A' <= s[i] <= 'Z' then r[i] as int == s[i] as int + 32 else r[i] == s[i]
  {
    seq(|s|, i requires 0 <= i < |s| => if 'A' <= s[i] <= 'Z' then s[i] + 'a' - 'A' else s[i])
  }

  predicate IsLowerAlnum(c: char) { 'a' <= c <= 'z' || '0' <= c <= '9' }

  predicate IsAlnum(c: char) { IsLowerAlnum(c) || 'A' <= c <= 'Z' }

  /** True when every character of `s` is accepted and the length is within 1 and `limit`. */
  predicate Matches(s: string, accepted: char -> bool, limit: nat) {
    1 <= |s| <= limit && forall i :: 0 <= i < |s| ==> accepted(s[i])
  }
}
