/**
 * The member-name rule of components/MemberManager.tsx:17-18: the entered name is
 * trimmed as JavaScript's `String.prototype.trim` does, and a blank name is not added.
 */
module MemberNames {
  import opened BillTypes

  /** The characters `trim` removes: ECMAScript's WhiteSpace and LineTerminator. */
  predicate IsJsWhitespace(c: char)
  {
    || c == '\t' || c == '\n' || c == '\U{B}' || c == '\U{C}' || c == '\r' || c == ' '
    || c == '\U{A0}' || c == '\U{1680}' || ('\U{2000}' <= c <= '\U{200A}')
    || c == '\U{2028}' || c == '\U{2029}' || c == '\U{202F}' || c == '\U{205F}'
    || c == '\U{3000}' || c == '\U{FEFF}'
  }

  /** `s` without its leading whitespace. */
  function TrimStart(s: string): (r: string)
    ensures |r| <= |s| && r == s[|s| - |r|..]
    ensures forall k :: 0 <= k < |s| - |r| ==> IsJsWhitespace(s[k])
    ensures r != [] ==> !IsJsWhitespace(r[0])
    decreases |s|
  {
    if s != [] && IsJsWhitespace(s[0]) then TrimStart(s[1..]) else s
  }

  /** `s` without its trailing whitespace. */
  function TrimEnd(s: string): (r: string)
    ensures |r| <= |s| && r == s[..|r|]
    ensures forall k :: |r| <= k < |s| ==> IsJsWhitespace(s[k])
    ensures r != [] ==> !IsJsWhitespace(r[|r| - 1])
    decreases |s|
  {
    if s != [] && IsJsWhitespace(s[|s| - 1]) then TrimEnd(s[..|s| - 1]) else s
  }

  /** `s.trim()`. */
  function Trim(s: string): string
  {
    TrimEnd(TrimStart(s))
  }

  /** A name as `addMember` receives it: non-empty, with no whitespace at either end. */
  predicate IsTrimmedName(name: string)
  {
    name != [] && !IsJsWhitespace(name[0]) && !IsJsWhitespace(name[|name| - 1])
  }

  /** The trimmed string is the slice of `s` at `lo`, and only whitespace lies outside it. */
  lemma TrimIsSlice(s: string)
    ensures var r, lo := Trim(s), |s| - |TrimStart(s)|;
      && lo + |r| <= |s| && r == s[lo..lo + |r|]
      && (forall k :: 0 <= k < lo ==> IsJsWhitespace(s[k]))
      && (forall k :: lo + |r| <= k < |s| ==> IsJsWhitespace(s[k]))
  {
    var t := TrimStart(s);
    var r := TrimEnd(t);
    var lo := |s| - |t|;
    assert r == t[..|r|];
    forall k | lo + |r| <= k < |s| ensures IsJsWhitespace(s[k]) {
      assert s[k] == t[k - lo];
    }
  }

  /**
   * What trimming does: the result is a slice of `s` starting at `lo`, only whitespace
   * lies outside it, it is empty or a trimmed name, and it is empty exactly when `s`
   * holds nothing but whitespace.
   */
  lemma TrimSpec(s: string)
    ensures var r, lo := Trim(s), |s| - |TrimStart(s)|;
      && lo + |r| <= |s| && r == s[lo..lo + |r|]
      && (forall k :: 0 <= k < lo ==> IsJsWhitespace(s[k]))
      && (forall k :: lo + |r| <= k < |s| ==> IsJsWhitespace(s[k]))
      && (r == [] || IsTrimmedName(r))
      && (r == [] <==> forall k :: 0 <= k < |s| ==> IsJsWhitespace(s[k]))
  {
    TrimIsSlice(s);
    var t := TrimStart(s);
    var r := TrimEnd(t);
    var lo := |s| - |t|;
    if r != [] {
      assert r[0] == t[0] == s[lo];
    }
  }

  /** Trimming twice changes nothing more. */
  lemma TrimIdempotent(s: string)
    ensures Trim(Trim(s)) == Trim(s)
  {
    var r := Trim(s);
    TrimSpec(s);
    if r != [] {
      assert TrimStart(r) == r;
    }
  }

  /** The form's submit handler: the trimmed name, or nothing to add when it is blank (MemberManager.tsx:17-18). */
  function SubmittedName(input: string): (r: Option<string>)
    ensures r.Some? ==> IsTrimmedName(r.value) && r.value == Trim(input)
    ensures r.None? <==> forall k :: 0 <= k < |input| ==> IsJsWhitespace(input[k])
  {
    TrimSpec(input);
    var name := Trim(input);
    if name != [] then Some(name) else None
  }
}
