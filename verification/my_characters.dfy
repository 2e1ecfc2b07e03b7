/** The member's character page: the phone-number format and the
    "copied" marks on the citizen id and phone of each character card. */
module MyCharacters {
  import opened Results
  import opened Text
  import JsParse

  /** `formatPhoneNumber`: "No phone" for a missing or empty number; a
      number holding exactly ten digits as `(ddd) ddd-dddd`; any other
      number as it was given. */
  function FormatPhone(phone: Option<string>): (r: string)
    ensures phone.None? || phone.value == "" ==> r == "No phone"
    ensures phone.Some? && phone.value != "" && |Digits(phone.value)| != 10 ==> r == phone.value
    ensures phone.Some? && phone.value != "" && |Digits(phone.value)| == 10 ==>
              && |r| == 14 && Digits(r) == Digits(phone.value)
              && r[0] == '(' && r[4] == ')' && r[5] == ' ' && r[9] == '-'
  {
    match phone
    case None => "No phone"
    case Some(p) =>
      if p == "" then "No phone"
      else
        var d := Digits(p);
        if |d| == 10 then
          DigitsShape(d);
          "(" + d[..3] + ") " + d[3..6] + "-" + d[6..]
        else p
  }

  /** The ten digits survive the punctuation around them, in order. */
  lemma DigitsShape(d: string)
    requires |d| == 10 && forall i :: 0 <= i < |d| ==> IsDigit(d[i])
    ensures Digits("(" + d[..3] + ") " + d[3..6] + "-" + d[6..]) == d
  {
    var a, b, c := d[..3], d[3..6], d[6..];
    DigitsOfDigits(a);
    DigitsOfDigits(b);
    DigitsOfDigits(c);
    PunctuationHasNoDigits();
    DigitsOfSix("(", a, ") ", b, "-", c);
    assert a + b + c == d;
  }

  /** The punctuation of the phone format holds no digit. */
  lemma PunctuationHasNoDigits()
    ensures Digits("(") == "" && Digits(") ") == "" && Digits("-") == ""
  {
  }

  /** `Digits` of six pieces put together. */
  lemma DigitsOfSix(x1: string, x2: string, x3: string, x4: string, x5: string, x6: string)
    ensures Digits(x1 + x2 + x3 + x4 + x5 + x6)
            == Digits(x1) + Digits(x2) + Digits(x3) + Digits(x4) + Digits(x5) + Digits(x6)
  {
    DigitsAppend(x1 + x2 + x3 + x4 + x5, x6);
    DigitsAppend(x1 + x2 + x3 + x4, x5);
    DigitsAppend(x1 + x2 + x3, x4);
    DigitsAppend(x1 + x2, x3);
    DigitsAppend(x1, x2);
  }

  /** "No phone" holds no digit. */
  lemma NoPhoneHasNoDigits()
    ensures Digits("No phone") == ""
  {
    assert forall i :: 0 <= i < |"No phone"| ==> !IsDigit("No phone"[i]);
    NoDigitsIn("No phone");
  }

  lemma {:induction false} NoDigitsIn(s: string)
    requires forall i :: 0 <= i < |s| ==> !IsDigit(s[i])
    ensures Digits(s) == ""
  {
    if |s| > 0 {
      assert forall i :: 0 <= i < |s[1..]| ==> !IsDigit(s[1..][i]);
      NoDigitsIn(s[1..]);
    }
  }

  /** Formatting what was shown changes nothing, whether the number was
      missing, empty, ten digits, or anything else. */
  lemma FormatPhoneIdempotent(phone: Option<string>)
    ensures FormatPhone(Some(FormatPhone(phone))) == FormatPhone(phone)
  {
    var r := FormatPhone(phone);
    if phone.None? || phone.value == "" {
      NoPhoneHasNoDigits();
    } else {
      var d := Digits(phone.value);
      if |d| == 10 {
        assert Digits(r) == d;
        assert r == "(" + d[..3] + ") " + d[3..6] + "-" + d[6..];
      }
    }
  }

  /** The keys of the copy marks: one per character for the citizen id
      and one for the phone. */
  function CitizenKey(characterId: int): string {
    "cid-" + ShowInt(characterId)
  }

  function PhoneKey(characterId: int): string {
    "phone-" + ShowInt(characterId)
  }

  /** Marks never collide: the two kinds differ in their first letter, and
      different characters render different ids. */
  lemma CopyKeysDistinct(a: int, b: int)
    ensures CitizenKey(a) != PhoneKey(b)
    ensures CitizenKey(a) == CitizenKey(b) <==> a == b
    ensures PhoneKey(a) == PhoneKey(b) <==> a == b
  {
    assert CitizenKey(a)[0] != PhoneKey(b)[0];
    if CitizenKey(a) == CitizenKey(b) {
      assert ShowInt(a) == CitizenKey(a)[4..] == CitizenKey(b)[4..] == ShowInt(b);
      JsParse.ShowIntInjective(a, b);
    }
    if PhoneKey(a) == PhoneKey(b) {
      assert ShowInt(a) == PhoneKey(a)[6..] == PhoneKey(b)[6..] == ShowInt(b);
      JsParse.ShowIntInjective(a, b);
    }
  }

  /** The copy marks: a key shows a check mark while it maps to true. */
  predicate ShowsCheck(copied: map<string, bool>, key: string) {
    key in copied && copied[key]
  }

  /** A copy succeeded, as written: the marks are rebuilt from the map
      the click's render saw, not from the `current` marks, which may have
      changed while the clipboard write was pending. */
  function MarkCopiedAsWritten(rendered: map<string, bool>, current: map<string, bool>, key: string): (r: map<string, bool>)
    ensures ShowsCheck(r, key)
    ensures forall k :: k != key ==> (k in r <==> k in rendered) && (k in r ==> r[k] == rendered[k])
  {
    rendered[key := true]
  }

  /** A copy succeeded, as intended: the mark turns on in the current
      marks and every other mark is kept, as the functional update of the
      expiry already does. */
  function MarkCopied(copied: map<string, bool>, key: string): (r: map<string, bool>)
    ensures ShowsCheck(r, key)
    ensures forall k :: k != key ==> (k in r <==> k in copied) && (k in r ==> r[k] == copied[k])
  {
    copied[key := true]
  }

  /** Two seconds later the mark turns off again; every other mark is
      kept. */
  function ClearCopied(copied: map<string, bool>, key: string): (r: map<string, bool>)
    ensures !ShowsCheck(r, key) && key in r
    ensures forall k :: k != key ==> (k in r <==> k in copied) && (k in r ==> r[k] == copied[k])
  {
    copied[key := false]
  }

  /** Copying one item and letting its mark expire leaves every other
      item's mark as it was. */
  lemma CopyThenExpire(copied: map<string, bool>, key: string, other: string)
    requires other != key
    ensures !ShowsCheck(ClearCopied(MarkCopied(copied, key), key), key)
    ensures ShowsCheck(ClearCopied(MarkCopied(copied, key), key), other) == ShowsCheck(copied, other)
  {
  }

  /** `a` is copied; `b` is clicked while `a` shows its check; `a`'s mark
      expires before `b`'s clipboard write completes. As written, `b`'s
      mark brings back the `a` mark from the click's render, and once
      `b`'s own mark expires `a` still shows a check that no timer will
      clear. Marking the current map, `a` stays cleared. */
  lemma StaleMarkOutlivesExpiry(a: string, b: string)
    requires a != b
    ensures var shown := MarkCopied(map[], a);
            var expired := ClearCopied(shown, a);
            ShowsCheck(ClearCopied(MarkCopiedAsWritten(shown, expired, b), b), a)
    ensures var shown := MarkCopied(map[], a);
            var expired := ClearCopied(shown, a);
            !ShowsCheck(ClearCopied(MarkCopied(expired, b), b), a)
  {
  }

  /** With the intended update, an expired mark stays off whatever other
      copies complete and expire afterwards. */
  lemma {:induction false} ExpiredMarkStaysOff(copied: map<string, bool>, a: string, later: seq<string>)
    requires a !in later
    ensures !ShowsCheck(MarkAndExpireAll(ClearCopied(copied, a), later), a)
    decreases |later|
  {
    if |later| > 0 {
      var next := ClearCopied(MarkCopied(ClearCopied(copied, a), later[0]), later[0]);
      assert !ShowsCheck(next, a) && a in next;
      assert next == ClearCopied(ClearCopied(MarkCopied(copied, later[0]), later[0]), a);
      ExpiredMarkStaysOff(ClearCopied(MarkCopied(copied, later[0]), later[0]), a, later[1..]);
    }
  }

  /** Each key in turn is copied and its mark expires. */
  function MarkAndExpireAll(copied: map<string, bool>, keys: seq<string>): map<string, bool>
    decreases |keys|
  {
    if |keys| == 0 then copied else MarkAndExpireAll(ClearCopied(MarkCopied(copied, keys[0]), keys[0]), keys[1..])
  }

  /** Clicking the phone line copies the number only when there is one. */
  function PhoneToCopy(phone: Option<string>): (r: Option<string>)
    ensures r.Some? <==> phone.Some? && phone.value != ""
    ensures r.Some? ==> r == phone
  {
    match phone
    case Some(p) => if p != "" then Some(p) else None
    case None => None
  }
}
