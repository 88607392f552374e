/** `getCardIdFromUrl` of main.js: the `id` query parameter, trimmed as
    JavaScript's `String.prototype.trim` does, or the default card id. main.js
    defines this function but never calls it. */
module CardIds {
  import opened Wrappers

  const DefaultCardId := "card_001"

  /** The code points `trim` removes: ECMAScript's WhiteSpace (tab, vertical
      tab, form feed, space, no-break space, the other space separators and
      the byte order mark) and LineTerminator (line feed, carriage return,
      line and paragraph separators). */
  const JsWhitespace: set<int> := {
    0x09, 0x0A, 0x0B, 0x0C, 0x0D, 0x20, 0xA0, 0x1680,
    0x2000, 0x2001, 0x2002, 0x2003, 0x2004, 0x2005, 0x2006, 0x2007, 0x2008, 0x2009, 0x200A,
    0x2028, 0x2029, 0x202F, 0x205F, 0x3000, 0xFEFF
  }

  predicate IsJsWhitespace(c: char) {
    c as int in JsWhitespace
  }

  predicate IsBlank(s: string) {
    forall k :: 0 <= k < |s| ==> IsJsWhitespace(s[k])
  }

  /** The first index at or after `i` that does not hold whitespace (or
      `|s|`). */
  function SkipForward(s: string, i: nat): (n: nat)
    requires i <= |s|
    ensures i <= n <= |s|
    ensures forall k :: i <= k < n ==> IsJsWhitespace(s[k])
    ensures n < |s| ==> !IsJsWhitespace(s[n])
    decreases |s| - i
  {
    if i < |s| && IsJsWhitespace(s[i]) then SkipForward(s, i + 1) else i
  }

  /** The least index `n` at or after `lo`, going back from `j`, such that
      `s[n..j]` is whitespace. */
  function SkipBackward(s: string, lo: nat, j: nat): (n: nat)
    requires lo <= j <= |s|
    ensures lo <= n <= j
    ensures forall k :: n <= k < j ==> IsJsWhitespace(s[k])
    ensures n > lo ==> !IsJsWhitespace(s[n - 1])
    decreases j
  {
    if j > lo && IsJsWhitespace(s[j - 1]) then SkipBackward(s, lo, j - 1) else j
  }

  /** Where `trim`'s result starts and ends in `s`. */
  function TrimStartIndex(s: string): nat {
    SkipForward(s, 0)
  }

  function TrimEndIndex(s: string): nat {
    SkipBackward(s, TrimStartIndex(s), |s|)
  }

  /** `s.trim()`: `s` without its leading and trailing whitespace. It is
      empty exactly when `s` is blank, and otherwise starts and ends with a
      character that is not whitespace. */
  function Trim(s: string): (r: string)
    ensures r == [] <==> IsBlank(s)
    ensures r != [] ==> !IsJsWhitespace(r[0]) && !IsJsWhitespace(r[|r| - 1])
  {
    var i := TrimStartIndex(s);
    var j := TrimEndIndex(s);
    assert j == i ==> i == |s|;
    assert j > i ==> !IsJsWhitespace(s[i]);
    s[i..j]
  }

  /** What `trim` keeps is a slice of `s` whose margins are all whitespace. */
  lemma {:induction false} TrimMiddle(s: string)
    ensures var i := TrimStartIndex(s); var j := TrimEndIndex(s);
      i <= j <= |s| && Trim(s) == s[i..j] && IsBlank(s[..i]) && IsBlank(s[j..])
  {
    var i := TrimStartIndex(s);
    var j := TrimEndIndex(s);
    assert forall k :: 0 <= k < i ==> s[..i][k] == s[k];
    assert forall k :: 0 <= k < |s| - j ==> s[j..][k] == s[j + k];
  }

  /** Trimming twice is trimming once. */
  lemma TrimIdempotent(s: string)
    ensures Trim(Trim(s)) == Trim(s)
  {
    TrimClean(Trim(s));
  }

  /** A string that neither starts nor ends with whitespace is its own trim. */
  lemma TrimClean(s: string)
    requires s == [] || (!IsJsWhitespace(s[0]) && !IsJsWhitespace(s[|s| - 1]))
    ensures Trim(s) == s
  {
    assert TrimStartIndex(s) == 0;
    assert TrimEndIndex(s) == |s|;
  }

  /** `getCardIdFromUrl`, given the value of the page URL's `id` search
      parameter (`None` when it is absent): the trimmed parameter when it is
      present and not blank, otherwise the default card. */
  function CardIdFromUrl(param: Option<string>): (id: string)
    ensures id != "" && !IsJsWhitespace(id[0]) && !IsJsWhitespace(id[|id| - 1])
    ensures param.Some? && !IsBlank(param.value) ==> id == Trim(param.value)
    ensures param.None? || IsBlank(param.value) ==> id == DefaultCardId
  {
    match param
    case None => DefaultCardId
    case Some(raw) => if raw != "" && Trim(raw) != "" then Trim(raw) else DefaultCardId
  }
}
