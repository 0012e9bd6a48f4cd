/** String.prototype.trim. */
module Trimming {

  /** White space and line terminators in the sense of String.prototype.trim. */
  predicate IsSpace(c: char) {
    var u := c as int;
    9 <= u <= 13 || u == 32 || u == 0xA0 || u == 0x1680 || 0x2000 <= u <= 0x200A
    || u == 0x2028 || u == 0x2029 || u == 0x202F || u == 0x205F || u == 0x3000 || u == 0xFEFF
  }

  lemma {:induction false} SpacesByCode(c: char)
    ensures IsSpace(c) <==> c as int in {
      9, 10, 11, 12, 13, 0x20, 0xA0, 0x1680, 0x2000, 0x2001, 0x2002, 0x2003, 0x2004, 0x2005, 0x2006, 0x2007, 0x2008, 0x2009, 0x200A,
      0x2028, 0x2029, 0x202F, 0x205F, 0x3000, 0xFEFF}
  {
  }

  function SkipSpace(s: string, i: nat): (n: nat)
    requires i <= |s|
    ensures i <= n <= |s| && (forall k :: i <= k < n ==> IsSpace(s[k]))
    ensures n < |s| ==> !IsSpace(s[n])
    decreases |s| - i
  {
    if i < |s| && IsSpace(s[i]) then SkipSpace(s, i + 1) else i
  }

  function DropSpace(s: string, from: nat, i: nat): (n: nat)
    requires from <= i <= |s|
    ensures from <= n <= i && (forall k :: n <= k < i ==> IsSpace(s[k]))
    ensures n > from ==> !IsSpace(s[n - 1])
  {
    if i > from && IsSpace(s[i - 1]) then DropSpace(s, from, i - 1) else i
  }

  function Trim(s: string): string {
    var from := SkipSpace(s, 0);
    s[from..DropSpace(s, from, |s|)]
  }

  lemma {:induction false} TrimKeeps(s: string)
    requires |s| > 0 && !IsSpace(s[0]) && !IsSpace(s[|s| - 1])
    ensures Trim(s) == s
  {
  }

  /** The middle of a text, between white space only, that neither starts nor ends with white space. */
  predicate IsMiddle(s: string, from: nat, to: nat) {
    && from <= to <= |s| && (forall k :: 0 <= k < from ==> IsSpace(s[k])) && (forall k :: to <= k < |s| ==> IsSpace(s[k]))
    && (from < to ==> !IsSpace(s[from]) && !IsSpace(s[to - 1]))
  }

  /** Trimming leaves the middle of the text. */
  lemma {:induction false} TrimIsMiddle(s: string) returns (from: nat, to: nat)
    ensures IsMiddle(s, from, to) && Trim(s) == s[from..to]
  {
    from := SkipSpace(s, 0);
    to := DropSpace(s, from, |s|);
  }

  /** A text has only one middle. */
  lemma {:induction false} MiddleIsTrim(s: string, from: nat, to: nat)
    requires IsMiddle(s, from, to)
    ensures Trim(s) == s[from..to]
  {
    var first, last := TrimIsMiddle(s);
    if from < to {
      assert first < last && first == from && last == to;
    }
  }
}
