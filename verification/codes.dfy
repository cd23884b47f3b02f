/**
 Meeting codes. A meeting's code is the first eight characters of the string
 form of a fresh random uuid, upper-cased. The string form of a uuid (section 3
 of RFC 4122) is 32 lower-case hexadecimal digits in groups of 8-4-4-4-12
 separated by hyphens; a version 4 uuid has '4' as the first digit of its third
 group and one of 8, 9, a, b as the first digit of its fourth group.
 */
module Codes {

  /** The length of a meeting code. */
  const CodeLength: nat := 8

  predicate IsLowerHex(c: char) {
    '0' <= c <= '9' || 'a' <= c <= 'f'
  }

  predicate IsUpperHex(c: char) {
    '0' <= c <= '9' || 'A' <= c <= 'F'
  }

  /** The string form of a version 4 uuid, as `str(uuid.uuid4())` produces it. */
  predicate IsUuid4String(u: string) {
    && |u| == 36
    && (forall i :: 0 <= i < |u| && i in {8, 13, 18, 23} ==> u[i] == '-')
    && (forall i :: 0 <= i < |u| && i !in {8, 13, 18, 23} ==> IsLowerHex(u[i]))
    && u[14] == '4'
    && u[19] in {'8', '9', 'a', 'b'}
  }

  /** A value `str(uuid.uuid4())` can return. */
  type Uuid4 = u: string | IsUuid4String(u) witness "00000000-0000-4000-8000-000000000000"

  /** What a generated meeting code looks like: eight characters from 0-9 and A-F. */
  predicate IsMeetingCode(code: string) {
    |code| == CodeLength && forall i :: 0 <= i < |code| ==> IsUpperHex(code[i])
  }

  /** `str.upper()` on one character; only ASCII letters are modelled. */
  function UpperChar(c: char): char {
    if 'a' <= c <= 'z' then (c as int - 'a' as int + 'A' as int) as char else c
  }

  function LowerChar(c: char): char {
    if 'A' <= c <= 'Z' then (c as int - 'A' as int + 'a' as int) as char else c
  }

  function Upper(s: string): (r: string)
    ensures |r| == |s|
    ensures forall i :: 0 <= i < |s| ==> r[i] == UpperChar(s[i])
  {
    seq(|s|, i requires 0 <= i < |s| => UpperChar(s[i]))
  }

  function Lower(s: string): (r: string)
    ensures |r| == |s|
    ensures forall i :: 0 <= i < |s| ==> r[i] == LowerChar(s[i])
  {
    seq(|s|, i requires 0 <= i < |s| => LowerChar(s[i]))
  }

  /** The code a new meeting receives from the uuid drawn for it. */
  function CodeFromUuid(u: Uuid4): (code: string)
    ensures IsMeetingCode(code)
    ensures Lower(code) == u[..CodeLength]
  {
    var code := Upper(u[..CodeLength]);
    assert forall i :: 0 <= i < CodeLength ==> LowerChar(code[i]) == u[i];
    code
  }
}
