/**
 * The room-password rule: a private room needs a password with at least one
 * non-whitespace character; a public room must carry none.
 */
module PrivatePassword {
  import opened JsonValue

  const RequiredMessage: string := "Password is required for private rooms"
  const ForbiddenMessage: string := "Password must not be set for public rooms"

  /** The characters `String.prototype.trim` removes: white space and line terminators. */
  predicate IsWhitespace(c: char)
  {
    || c == '\U{0009}' || c == '\U{000B}' || c == '\U{000C}' || c == '\U{0020}'
    || c == '\U{00A0}' || c == '\U{FEFF}' || c == '\U{1680}' || ('\U{2000}' <= c <= '\U{200A}')
    || c == '\U{202F}' || c == '\U{205F}' || c == '\U{3000}'
    || c == '\U{000A}' || c == '\U{000D}' || c == '\U{2028}' || c == '\U{2029}'
  }

  /** Every character of `s` is white space. */
  predicate AllWhitespace(s: string)
  {
    forall i :: 0 <= i < |s| ==> IsWhitespace(s[i])
  }

  /** `s` without its leading white space: a suffix of `s` after a white-space prefix. */
  function TrimStart(s: string): (r: string)
    ensures |r| <= |s| && r == s[|s| - |r|..]
    ensures AllWhitespace(s[..|s| - |r|])
    ensures r == [] || !IsWhitespace(r[0])
    decreases |s|
  {
    if s != [] && IsWhitespace(s[0]) then TrimStart(s[1..]) else s
  }

  /** `s` without its trailing white space: a prefix of `s` before a white-space suffix. */
  function TrimEnd(s: string): (r: string)
    ensures |r| <= |s| && r == s[..|r|]
    ensures AllWhitespace(s[|r|..])
    ensures r == [] || !IsWhitespace(r[|r| - 1])
    decreases |s|
  {
    if s != [] && IsWhitespace(s[|s| - 1]) then TrimEnd(s[..|s| - 1]) else s
  }

  /** `s.trim()`. */
  function Trim(s: string): (r: string)
    ensures |r| <= |s|
    ensures var a := |s| - |TrimStart(s)|;
      && a + |r| <= |s| && r == s[a..a + |r|]
      && AllWhitespace(s[..a]) && AllWhitespace(s[a + |r|..])
    ensures r == [] || (!IsWhitespace(r[0]) && !IsWhitespace(r[|r| - 1]))
  {
    var t := TrimStart(s);
    var r := TrimEnd(t);
    PrefixOfSuffix(s, |s| - |t|, t, r);
    r
  }

  /** A prefix `r` of the suffix `t` of `s` starting at `a` is the slice of `s` at `a`, and what `t` leaves after `r` is what `s` does. */
  lemma PrefixOfSuffix(s: string, a: nat, t: string, r: string)
    requires a <= |s| && t == s[a..] && |r| <= |t| && r == t[..|r|]
    ensures a + |r| <= |s| && r == s[a..a + |r|] && t[|r|..] == s[a + |r|..]
  {
  }

  /** Trimming leaves something exactly when the string has a character that is not white space. */
  lemma TrimEmptyIffAllWhitespace(s: string)
    ensures Trim(s) == "" <==> AllWhitespace(s)
  {
    var t := TrimStart(s);
    var prefix := s[..|s| - |t|];
    assert s == prefix + t;
    if Trim(s) == "" {
      // what TrimEnd dropped from `t` is all white space, so `t` was empty
      assert t[|Trim(s)|..] == t;
      assert AllWhitespace(t);
      assert t == [];
      assert s == prefix;
    } else {
      var r := Trim(s);
      assert r == t[..|r|];
      assert r[0] == t[0];
      assert !IsWhitespace(s[|prefix|]);
    }
  }

  /** validate: the rule for the room's `private` value and the submitted password value. */
  function Validate(isPrivate: Json, value: Json): (r: bool)
    ensures Truthy(isPrivate) ==>
      (r <==> value.JStr? && exists i :: 0 <= i < |value.s| && !IsWhitespace(value.s[i]))
    ensures !Truthy(isPrivate) ==> (r <==> value == JUndef || value == JNull)
  {
    if Truthy(isPrivate) then
      if value.JStr? then
        TrimEmptyIffAllWhitespace(value.s);
        Trim(value.s) != ""
      else false
    else value == JUndef || value == JNull
  }

  /** defaultMessage: which of the two messages applies. */
  function DefaultMessage(isPrivate: Json): (r: string)
    ensures r == RequiredMessage <==> Truthy(isPrivate)
    ensures r == ForbiddenMessage <==> !Truthy(isPrivate)
  {
    if Truthy(isPrivate) then RequiredMessage else ForbiddenMessage
  }

  /** A public room rejects every string, the empty one included. */
  lemma PublicRoomRejectsStrings(isPrivate: Json, s: string)
    requires !Truthy(isPrivate)
    ensures !Validate(isPrivate, JStr(s))
  {
  }

  /** A private room rejects a password of white space only, and accepts one with a visible character. */
  lemma PrivateRoomExamples()
    ensures !Validate(JBool(true), JStr(" \t\n"))
    ensures !Validate(JBool(true), JStr(""))
    ensures !Validate(JBool(true), JUndef)
    ensures Validate(JBool(true), JStr(" pw "))
    ensures Validate(JBool(false), JNull) && Validate(JUndef, JUndef)
  {
    assert !IsWhitespace(" pw "[1]);
  }
}
