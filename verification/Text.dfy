/**
The text normalizers shared by the sale store and the runtime scopes: trimming, optional
messages, and the date-time form with exactly three fraction digits.
*/
module Text {
  import opened Prelude

  /** The characters String.prototype.trim removes. */
  predicate IsSpace(c: char) {
    '\t' <= c <= '\r' || c == ' ' || c == '\U{00A0}' || c == '\U{1680}' || '\U{2000}' <= c <= '\U{200A}' ||
    c == '\U{2028}' || c == '\U{2029}' || c == '\U{202F}' || c == '\U{205F}' || c == '\U{3000}' || c == '\U{FEFF}'
  }

  predicate Trimmed(s: string) {
    s == "" || (!IsSpace(s[0]) && !IsSpace(s[|s| - 1]))
  }

  function TrimStart(s: string): (r: string)
    ensures r == "" || !IsSpace(r[0])
    ensures s != "" && !IsSpace(s[|s| - 1]) ==> r != "" && r[|r| - 1] == s[|s| - 1]
    ensures s != "" && !IsSpace(s[0]) ==> r == s
  {
    if s != "" && IsSpace(s[0]) then TrimStart(s[1..]) else s
  }

  function TrimEnd(s: string): (r: string)
    ensures r == "" || !IsSpace(r[|r| - 1])
    ensures s != "" && !IsSpace(s[|s| - 1]) ==> r == s
  {
    if s != "" && IsSpace(s[|s| - 1]) then TrimEnd(s[..|s| - 1]) else s
  }

  function Trim(s: string): (r: string)
    ensures Trimmed(r)
    ensures Trimmed(s) ==> r == s
  {
    TrimStart(TrimEnd(s))
  }

  lemma {:induction false} StartIsCut(s: string) returns (i: nat)
    ensures i <= |s| && TrimStart(s) == s[i..] && forall k :: 0 <= k < i ==> IsSpace(s[k])
  {
    i := 0;
    if s != "" && IsSpace(s[0]) {
      var j := StartIsCut(s[1..]);
      assert forall k :: 0 < k < j + 1 ==> s[k] == s[1..][k - 1];
      i := j + 1;
    }
  }

  lemma {:induction false} EndIsCut(s: string) returns (j: nat)
    ensures j <= |s| && TrimEnd(s) == s[..j] && forall k :: j <= k < |s| ==> IsSpace(s[k])
  {
    j := |s|;
    if s != "" && IsSpace(s[|s| - 1]) {
      j := EndIsCut(s[..|s| - 1]);
      assert forall k :: j <= k < |s| - 1 ==> s[k] == s[..|s| - 1][k];
    }
  }

  /** Trimming takes white space off both ends and nothing else. */
  lemma TrimKeepsTheMiddle(s: string) returns (i: nat, j: nat)
    ensures i <= j <= |s| && Trim(s) == s[i..j]
    ensures forall k :: (0 <= k < i || j <= k < |s|) ==> IsSpace(s[k])
  {
    j := EndIsCut(s);
    i := StartIsCut(s[..j]);
    assert forall k :: 0 <= k < i ==> s[k] == s[..j][k];
  }

  /** A stored error message: absent, or trimmed and not empty. */
  predicate StoredMessage(m: Option<string>) {
    m.Some? ==> m.value != "" && Trimmed(m.value)
  }

  function NormalizeMessage(m: Option<string>): (r: Option<string>)
    ensures StoredMessage(r)
    ensures StoredMessage(m) ==> r == m
  {
    if m.None? || Trim(m.value) == "" then None else Some(Trim(m.value))
  }

  /** A message is dropped only if there is nothing in it, and otherwise stored without the white space around it. */
  lemma MessageIsKept(m: string)
    ensures NormalizeMessage(Some(m)).None? <==> forall k :: 0 <= k < |m| ==> IsSpace(m[k])
    ensures NormalizeMessage(Some(m)).Some? ==> NormalizeMessage(Some(m)).value == Trim(m)
  {
    var i, j := TrimKeepsTheMiddle(m);
    if Trim(m) != "" { assert Trim(m)[0] == m[i]; }
  }

  predicate IsDigit(c: char) {
    '0' <= c <= '9'
  }

  /** The stored DATETIME(3) form, with d for a digit. */
  const DATE_TIME3 := "dddd-dd-dd dd:dd:dd.ddd"

  predicate Matches(s: string, pattern: string) {
    |s| == |pattern| && forall i :: 0 <= i < |s| ==> if pattern[i] == 'd' then IsDigit(s[i]) else s[i] == pattern[i]
  }

  predicate IsDateTime3(s: string) {
    Matches(s, DATE_TIME3)
  }

  /**
  The string case of normalizeDateTime3: seconds, or seconds and one to three fraction digits padded
  with zeros. None stands for a text it rejects or hands to the Date parser.
  */
  function NormalizeDateTime3(value: string): (r: Option<string>)
    ensures r.Some? ==> IsDateTime3(r.value)
    // the text's own digits, and zeros for the fraction digits it leaves out
    ensures r.Some? ==>
              Trim(value) <= r.value &&
              forall i :: 20 <= i < |r.value| && |Trim(value)| <= i ==> r.value[i] == '0'
  {
    var t := Trim(value);
    if |t| == 19 && Matches(t, DATE_TIME3[..19]) then Some(t + ".000")
    else if 21 <= |t| <= 23 && Matches(t, DATE_TIME3[..|t|]) then Some(t + "000"[|t| - 20..])
    else None
  }

  /** What stands at a place of the stored form, with d for a digit. */
  function Separator(i: nat): char {
    if i == 4 || i == 7 then '-' else if i == 10 then ' ' else if i == 13 || i == 16 then ':' else if i == 19 then '.'
    else 'd'
  }

  /** Accepted are dates and times to the second, with no fraction or one of one to three digits, inside white space. */
  lemma DateTimeIsAccepted(value: string)
    ensures NormalizeDateTime3(value).Some? <==>
            var t := Trim(value);
            && (|t| == 19 || |t| == 21 || |t| == 22 || |t| == 23)
            && forall i :: 0 <= i < |t| ==> if Separator(i) == 'd' then '0' <= t[i] <= '9' else t[i] == Separator(i)
  {
    var t := Trim(value);
    assert forall i :: 0 <= i < 23 ==> DATE_TIME3[i] == Separator(i);
  }

  /** A stored value is its own normal form: reading it and writing it back changes nothing. */
  lemma StoredDateTimeIsNormal(value: string)
    requires IsDateTime3(value)
    ensures NormalizeDateTime3(value) == Some(value)
  {
    assert IsDigit(value[0]) && IsDigit(value[22]);
    assert Trim(value) == value;
    assert DATE_TIME3[..23] == DATE_TIME3;
    assert value + "000"[23 - 20..] == value;
  }
}
