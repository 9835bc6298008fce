/** PHP string helpers the core relies on: truthiness, `strtolower` and `trim` (the latter
    two as the account table applies them to email addresses and generated passwords). */
module Text {

  /** PHP truthiness of a string: `""` and `"0"` are falsy, every other string is truthy. */
  predicate Truthy(s: string)
  {
    s != "" && s != "0"
  }

  /** `strtolower` on one character: only ASCII letters are mapped. */
  function LowerChar(c: char): char
  {
    if 'A' <= c <= 'Z' then (c as int + 32) as char else c
  }

  predicate IsLowerChar(c: char)
  {
    !('A' <= c <= 'Z')
  }

  /** `strtolower`. */
  function Lower(s: string): (r: string)
    ensures |r| == |s|
    ensures forall i :: 0 <= i < |s| ==> r[i] == LowerChar(s[i])
    ensures forall i :: 0 <= i < |r| ==> IsLowerChar(r[i])
  {
    seq(|s|, i requires 0 <= i < |s| => LowerChar(s[i]))
  }

  /** The characters `trim` strips by default: space, tab, newline, carriage return,
      NUL and vertical tab. */
  predicate IsTrimmed(c: char)
  {
    c == ' ' || c == '\t' || c == '\n' || c == '\r' || c == '\0' || c == '\U{0B}'
  }

  /** `ltrim`: drop leading trim characters; the result is a suffix of the input. */
  function TrimLeft(s: string): (r: string)
    ensures |r| <= |s| && r == s[|s| - |r|..]
    ensures |r| > 0 ==> !IsTrimmed(r[0])
    ensures forall i :: 0 <= i < |s| - |r| ==> IsTrimmed(s[i])
    decreases |s|
  {
    if |s| > 0 && IsTrimmed(s[0]) then TrimLeft(s[1..]) else s
  }

  /** `rtrim`: drop trailing trim characters; the result is a prefix of the input. */
  function TrimRight(s: string): (r: string)
    ensures |r| <= |s| && r == s[..|r|]
    ensures |r| > 0 ==> !IsTrimmed(r[|r| - 1])
    ensures forall i :: |r| <= i < |s| ==> IsTrimmed(s[i])
    decreases |s|
  {
    if |s| > 0 && IsTrimmed(s[|s| - 1]) then TrimRight(s[..|s| - 1]) else s
  }

  /** `trim`: both ends. */
  function Trim(s: string): (r: string)
    ensures |r| <= |s|
    ensures |r| > 0 ==> !IsTrimmed(r[0]) && !IsTrimmed(r[|r| - 1])
  {
    TrimRight(TrimLeft(s))
  }

  /** `r` is `s` with some leading and some trailing trim characters dropped: a contiguous
      slice of `s` with only trim characters outside it. */
  predicate TrimmedFrom(r: string, s: string)
  {
    exists k :: 0 <= k <= |s| - |r| && r == s[k..][..|r|]
      && (forall i :: 0 <= i < k ==> IsTrimmed(s[i]))
      && (forall i :: k + |r| <= i < |s| ==> IsTrimmed(s[i]))
  }

  /** A string that does not start with a trim character is its own `ltrim`. */
  lemma {:induction false} TrimLeftNoop(s: string)
    requires |s| == 0 || !IsTrimmed(s[0])
    ensures TrimLeft(s) == s
  {
  }

  /** A string that does not end with a trim character is its own `rtrim`. */
  lemma {:induction false} TrimRightNoop(s: string)
    requires |s| == 0 || !IsTrimmed(s[|s| - 1])
    ensures TrimRight(s) == s
  {
  }

  /** Trimming twice is trimming once. */
  lemma TrimIdempotent(s: string)
    ensures Trim(Trim(s)) == Trim(s)
  {
    var t := Trim(s);
    TrimLeftNoop(t);
    TrimRightNoop(t);
  }

  /** A `trim` result is a contiguous slice of its input, and only trim characters lie
      outside the slice. */
  lemma {:induction false} TrimIsSlice(s: string) returns (k: nat)
    ensures k + |Trim(s)| <= |s| && Trim(s) == s[k..k + |Trim(s)|]
    ensures forall i :: 0 <= i < k ==> IsTrimmed(s[i])
    ensures forall i :: k + |Trim(s)| <= i < |s| ==> IsTrimmed(s[i])
  {
    var l := TrimLeft(s);
    k := |s| - |l|;
    assert l == s[k..];
    var r := TrimRight(l);
    assert r == Trim(s);
    assert r == l[..|r|];
    assert forall i :: 0 <= i < |r| ==> r[i] == s[k + i];
    forall i | k + |r| <= i < |s| ensures IsTrimmed(s[i]) {
      assert s[i] == l[i - k];
    }
  }

  /** `trim` drops exactly the leading and trailing trim characters. */
  lemma {:induction false} TrimDropsTrimmed(s: string)
    ensures TrimmedFrom(Trim(s), s)
  {
    var k := TrimIsSlice(s);
    assert Trim(s) == s[k..][..|Trim(s)|];
  }

  /** Trimming a lower-cased string leaves only lower-case characters. */
  lemma {:induction false} TrimLowerIsLower(s: string)
    ensures forall i :: 0 <= i < |Trim(Lower(s))| ==> IsLowerChar(Trim(Lower(s))[i])
  {
    var k := TrimIsSlice(Lower(s));
    var t := Trim(Lower(s));
    forall i | 0 <= i < |t| ensures IsLowerChar(t[i]) {
      assert t[i] == Lower(s)[k + i];
    }
  }

  /** Lower-casing a string without upper-case letters changes nothing. */
  lemma LowerNoop(s: string)
    requires forall i :: 0 <= i < |s| ==> IsLowerChar(s[i])
    ensures Lower(s) == s
  {
  }

  /** `trim(strtolower($email))` is idempotent: a formatted email is a fixed point. */
  lemma {:induction false} TrimLowerIdempotent(s: string)
    ensures Trim(Lower(Trim(Lower(s)))) == Trim(Lower(s))
  {
    var t := Trim(Lower(s));
    TrimLowerIsLower(s);
    LowerNoop(t);
    TrimIdempotent(Lower(s));
  }
}
