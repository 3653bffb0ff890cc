/** Trim-based validation of the Add and Edit forms, and the error/success
    messages that a submit leaves behind. */
module Validation {

  /** The characters that `String.prototype.trim` strips: the ECMAScript
      WhiteSpace and LineTerminator code points. */
  predicate IsWhitespace(c: char) {
    || c == '\t' || c == '\n' || c == '\U{B}' || c == '\U{C}' || c == '\r' || c == ' '
    || c == '\U{A0}' || c == '\U{1680}' || ('\U{2000}' <= c <= '\U{200A}')
    || c == '\U{2028}' || c == '\U{2029}' || c == '\U{202F}' || c == '\U{205F}'
    || c == '\U{3000}' || c == '\U{FEFF}'
  }

  /** Every character of `s` is whitespace (vacuously so for the empty string). */
  predicate AllWhitespace(s: string) {
    forall k :: 0 <= k < |s| ==> IsWhitespace(s[k])
  }

  /** Leading whitespace removed: a suffix of `s`, everything dropped was
      whitespace, and what is left does not start with whitespace. */
  function TrimStart(s: string): (r: string)
    ensures |r| <= |s| && r == s[|s| - |r|..]
    ensures AllWhitespace(s[..|s| - |r|])
    ensures r != [] ==> !IsWhitespace(r[0])
  {
    if |s| > 0 && IsWhitespace(s[0]) then
      var r := TrimStart(s[1..]);
      assert s[1..][..|s| - 1 - |r|] == s[1..|s| - |r|];
      assert s[..|s| - |r|] == [s[0]] + s[1..|s| - |r|];
      assert r == s[1..][|s| - 1 - |r|..] == s[|s| - |r|..];
      r
    else
      s
  }

  /** Trailing whitespace removed: a prefix of `s`, everything dropped was
      whitespace, and what is left does not end with whitespace. */
  function TrimEnd(s: string): (r: string)
    ensures |r| <= |s| && r == s[..|r|]
    ensures AllWhitespace(s[|r|..])
    ensures r != [] ==> !IsWhitespace(r[|r| - 1])
  {
    if |s| > 0 && IsWhitespace(s[|s| - 1]) then
      var r := TrimEnd(s[..|s| - 1]);
      assert s[..|s| - 1][|r|..] == s[|r|..|s| - 1];
      assert s[|r|..] == s[|r|..|s| - 1] + [s[|s| - 1]];
      assert r == s[..|s| - 1][..|r|] == s[..|r|];
      r
    else
      s
  }

  /** `s` with whitespace removed at both ends: a contiguous slice of `s`
      with only whitespace around it, that neither starts nor ends with
      whitespace, and that is empty exactly when `s` is all whitespace. */
  function Trim(s: string): (r: string)
    ensures |r| <= |s|
    ensures exists i, j :: 0 <= i <= j <= |s| && r == s[i..j] && AllWhitespace(s[..i]) && AllWhitespace(s[j..])
    ensures r == [] <==> AllWhitespace(s)
    ensures r != [] ==> !IsWhitespace(r[0]) && !IsWhitespace(r[|r| - 1])
  {
    TrimEmptyIff(s);
    var t := TrimStart(s);
    var r := TrimEnd(t);
    var i := |s| - |t|;
    assert r == s[i..i + |r|] && s[i + |r|..] == t[|r|..];
    r
  }

  /** Trimming both ends leaves nothing exactly when every character was
      whitespace. */
  lemma TrimEmptyIff(s: string)
    ensures TrimEnd(TrimStart(s)) == [] <==> AllWhitespace(s)
  {
    var t := TrimStart(s);
    var d := |s| - |t|;
    if TrimEnd(t) == [] {
      TrimEndEmpty(t);
      assert s == s[..d];
    } else if t != [] {
      assert t[0] == s[d];
    }
  }

  /** Trailing trimming empties a string that does not start with whitespace
      only when the string was already empty. */
  lemma TrimEndEmpty(t: string)
    requires t == [] || !IsWhitespace(t[0])
    requires TrimEnd(t) == []
    ensures t == []
  {
  }

  /** The form's emptiness test: the trimmed string is the empty, falsy,
      string, which happens exactly when `s` is all whitespace. */
  function Blank(s: string): (b: bool)
    ensures b <==> AllWhitespace(s)
  {
    Trim(s) == []
  }

  /** The form check shared by Add and Edit: a submission is accepted
      exactly when both title and content hold a non-whitespace character. */
  function ValidInput(title: string, content: string): (ok: bool)
    ensures ok <==> !AllWhitespace(title) && !AllWhitespace(content)
  {
    !(Blank(title) || Blank(content))
  }

  const RequiredMessage: string := "Both title and content are required."
  const AddedMessage: string := "Note added successfully!"
  const UpdatedMessage: string := "Note updated successfully!"

  /** The pair of messages a form shows. The empty string shows nothing. */
  datatype Messages = Messages(error: string, success: string)
  {
    /** At most one of the two messages is shown. */
    predicate Exclusive() {
      error == [] || success == []
    }
  }

  /** The messages a submit leaves: on a rejected submission the required
      message and no success; on an accepted one no error and the given
      success message. */
  function AfterSubmit(valid: bool, successMessage: string): (m: Messages)
    requires successMessage != []
    ensures m.Exclusive()
    ensures m.error == [] <==> valid
    ensures m.success != [] <==> valid
    ensures valid ==> m.success == successMessage
    ensures !valid ==> m.error == RequiredMessage
  {
    if valid then Messages([], successMessage) else Messages(RequiredMessage, [])
  }
}
