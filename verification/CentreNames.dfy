/**
 Reading centre numbers out of department names: the marked number that discovery
 takes (api/config_init.py, centre_number) and the word-bounded match that every
 scan resolves by (models.py, identifies_service_center).
 */
module CentreNames {
  import opened Common
  import opened Calendar
  import opened Text

  /** `\w`, for the scripts that occur in these names. */
  predicate IsWord(c: char) {
    IsDigit(c) || 'a' <= c <= 'z' || 'A' <= c <= 'Z' || c == '_' || '\U{0400}' <= c <= '\U{052F}'
  }

  const NUMBER_SIGN: char := '№'

  /** `id` stands at position `i` of `text`, with no word character on either side. */
  predicate StandsAt(text: string, id: string, i: nat) {
    && i + |id| <= |text| && text[i..i + |id|] == id
    && (i > 0 ==> !IsWord(text[i - 1]))
    && (i + |id| < |text| ==> !IsWord(text[i + |id|]))
  }

  /** The id occurs in the text as a word of its own. */
  predicate Identifies(text: string, id: string) {
    id != "" && exists i: nat :: i <= |text| && StandsAt(text, id, i)
  }

  /** Where the white space starting at `i` ends. */
  function SkipSpace(text: string, i: nat): (j: nat)
    requires i <= |text|
    ensures i <= j <= |text|
    ensures forall k :: i <= k < j ==> IsSpace(text[k])
    decreases |text| - i
  {
    if i < |text| && IsSpace(text[i]) then SkipSpace(text, i + 1) else i
  }

  /** Where the digits starting at `i` end. */
  function SkipDigits(text: string, i: nat): (j: nat)
    requires i <= |text|
    ensures i <= j <= |text|
    ensures forall k :: i <= k < j ==> IsDigit(text[k])
    decreases |text| - i
  {
    if i < |text| && IsDigit(text[i]) then SkipDigits(text, i + 1) else i
  }

  /** The number marked by the sign at position `i`: three to six digits, and then the word ends. */
  function MarkedAt(text: string, i: nat): Option<string>
    requires i < |text|
  {
    if text[i] != NUMBER_SIGN then None
    else
      var from := SkipSpace(text, i + 1);
      var upTo := SkipDigits(text, from);
      if 3 <= upTo - from <= 6 && (upTo < |text| ==> !IsWord(text[upTo])) then Some(text[from..upTo]) else None
  }

  /** Every marked number, from position `i` on. */
  function NumbersFrom(text: string, i: nat): seq<string>
    requires i <= |text|
    decreases |text| - i
  {
    if i == |text| then []
    else (if MarkedAt(text, i).Some? then [MarkedAt(text, i).value] else []) + NumbersFrom(text, i + 1)
  }

  /** The one marked number of a name, if there is exactly one. */
  function CentreNumber(name: string): Option<string> {
    var found := NumbersFrom(name, 0);
    if found != [] && forall n <- found :: n == found[0] then Some(found[0]) else None
  }

  lemma {:induction false} NumbersAreMarked(text: string, i: nat, n: string)
    requires i <= |text| && n in NumbersFrom(text, i)
    ensures exists k :: i <= k < |text| && MarkedAt(text, k) == Some(n)
    decreases |text| - i
  {
    if MarkedAt(text, i) != Some(n) {
      NumbersAreMarked(text, i + 1, n);
    }
  }

  lemma MarkedNumberStands(text: string, i: nat)
    requires i < |text| && MarkedAt(text, i).Some?
    ensures Identifies(text, MarkedAt(text, i).value)
  {
    var from := SkipSpace(text, i + 1);
    assert from == i + 1 || IsSpace(text[from - 1]);
    assert StandsAt(text, MarkedAt(text, i).value, from);
  }

  /** A number that discovery reads off a name is a number that name identifies. */
  lemma CentreNumberIdentifies(name: string)
    requires CentreNumber(name).Some?
    ensures Identifies(name, CentreNumber(name).value)
  {
    var n := CentreNumber(name).value;
    assert n in NumbersFrom(name, 0);
    NumbersAreMarked(name, 0, n);
    var k :| 0 <= k < |name| && MarkedAt(name, k) == Some(n);
    MarkedNumberStands(name, k);
  }

  /** And it is three to six digits. */
  lemma CentreNumberIsDigits(name: string)
    requires CentreNumber(name).Some?
    ensures 3 <= |CentreNumber(name).value| <= 6 && forall c <- CentreNumber(name).value :: IsDigit(c)
  {
    var n := CentreNumber(name).value;
    assert n in NumbersFrom(name, 0);
    NumbersAreMarked(name, 0, n);
    var k :| 0 <= k < |name| && MarkedAt(name, k) == Some(n);
    var from := SkipSpace(name, k + 1);
    assert n == name[from..SkipDigits(name, from)];
  }
}
