/** `formatPhoneNumber` (app/utils.tsx): strip every non-digit, then lay the
    digits out by how many there are. */
module Phone {
  import opened Common

  /** What the regular expression class `\d` matches. */
  predicate IsDigit(c: char) {
    '0' <= c <= '9'
  }

  /** `s.replace(/\D/g, "")`: the digits of `s`, in order. */
  function Digits(s: string): (r: string)
    ensures |r| <= |s|
    ensures forall i :: 0 <= i < |r| ==> IsDigit(r[i])
    ensures forall c {:trigger multiset(s)[c]} :: IsDigit(c) ==> multiset(r)[c] == multiset(s)[c]
  {
    if s == [] then []
    else
      assert s == [s[0]] + s[1..];
      (if IsDigit(s[0]) then [s[0]] else []) + Digits(s[1..])
  }

  /** `phone` is `undefined` when `None`. */
  function FormatPhoneNumber(phone: Option<string>): (r: string)
    ensures phone.None? || phone.value == "" ==> r == ""
  {
    if phone.None? || phone.value == "" then ""
    else
      var cleaned := Digits(phone.value);
      if |cleaned| == 7 then cleaned[..3] + "-" + cleaned[3..]
      else if |cleaned| == 10 then "(" + cleaned[..3] + ") " + cleaned[3..6] + "-" + cleaned[6..]
      else if |cleaned| == 11 then
        // `/1(\d{3})(\d{3})(\d{4})/` needs a leading 1; without it nothing is replaced
        if cleaned[0] == '1' then "+1 (" + cleaned[1..4] + ") " + cleaned[4..7] + "-" + cleaned[7..]
        else cleaned
      else phone.value
  }

  /** `r` follows `layout`, where '#' stands for any digit and every other
      character stands for itself. */
  predicate Fits(r: string, layout: string) {
    |r| == |layout| &&
    forall i :: 0 <= i < |r| ==> if layout[i] == '#' then IsDigit(r[i]) else r[i] == layout[i]
  }

  lemma {:induction false} DigitsAppend(a: string, b: string)
    ensures Digits(a + b) == Digits(a) + Digits(b)
    decreases |a|
  {
    if a != [] {
      assert (a + b)[1..] == a[1..] + b;
      DigitsAppend(a[1..], b);
    } else {
      assert a + b == b;
    }
  }

  lemma {:induction false} DigitsOfDigits(s: string)
    requires AllDigits(s)
    ensures Digits(s) == s
    decreases |s|
  {
    if s != [] {
      DigitsOfDigits(s[1..]);
      assert s == [s[0]] + s[1..];
    }
  }

  predicate AllDigits(s: string) {
    forall i :: 0 <= i < |s| ==> IsDigit(s[i])
  }

  /** The layout characters carry no digits, except the country code 1. */
  lemma PunctuationDigits()
    ensures Digits("-") == [] && Digits(") ") == [] && Digits("(") == [] && Digits("+1 (") == "1"
  {
    assert "+1 ("[1..] == "1 (" && "1 ("[1..] == " (" && " ("[1..] == "(";
  }

  /** The digits of a laid-out number `pre a mid b dash d`, where only `pre`
      may hold a digit of its own. */
  lemma LayoutDigits(pre: string, a: string, mid: string, b: string, dash: string, d: string)
    requires AllDigits(a) && AllDigits(b) && AllDigits(d)
    requires Digits(mid) == [] && Digits(dash) == []
    ensures Digits(pre + a + mid + b + dash + d) == Digits(pre) + a + b + d
  {
    var s1 := pre + a;
    assert Digits(s1) == Digits(pre) + a by { DigitsOfDigits(a); DigitsAppend(pre, a); }
    var s2 := s1 + mid;
    assert Digits(s2) == Digits(pre) + a by { DigitsAppend(s1, mid); }
    var s3 := s2 + b;
    assert Digits(s3) == Digits(pre) + a + b by { DigitsOfDigits(b); DigitsAppend(s2, b); }
    var s4 := s3 + dash;
    assert Digits(s4) == Digits(pre) + a + b by { DigitsAppend(s3, dash); }
    assert Digits(s4 + d) == Digits(pre) + a + b + d by { DigitsOfDigits(d); DigitsAppend(s4, d); }
  }

  lemma LocalDigits(c: string)
    requires |c| == 7 && AllDigits(c)
    ensures Digits(c[..3] + "-" + c[3..]) == c
  {
    var a, b := c[..3], c[3..];
    assert AllDigits(a) by {
      assert forall k :: 0 <= k < |a| ==> a[k] == c[k];
    }
    assert AllDigits(b) by {
      assert forall k :: 0 <= k < |b| ==> b[k] == c[k + 3];
    }
    DigitsOfDigits(a);
    DigitsOfDigits(b);
    assert Digits("-") == [];
    DigitsAppend(a, "-");
    DigitsAppend(a + "-", b);
    assert a + b == c;
  }

  lemma NationalDigits(c: string)
    requires |c| == 10 && AllDigits(c)
    ensures Digits("(" + c[..3] + ") " + c[3..6] + "-" + c[6..]) == c
  {
    PunctuationDigits();
    DigitParts(c, 3, 6);
    LayoutDigits("(", c[..3], ") ", c[3..6], "-", c[6..]);
    assert [] + c[..3] + c[3..6] + c[6..] == c;
  }

  /** Cutting a string of digits in three leaves three strings of digits that
      put back together give the string. */
  lemma DigitParts(c: string, i: nat, j: nat)
    requires AllDigits(c) && i <= j <= |c|
    ensures AllDigits(c[..i]) && AllDigits(c[i..j]) && AllDigits(c[j..])
    ensures c[..i] + c[i..j] + c[j..] == c
  {
    assert forall k :: 0 <= k < i ==> c[..i][k] == c[k];
    assert forall k :: 0 <= k < j - i ==> c[i..j][k] == c[i + k];
    assert forall k :: 0 <= k < |c| - j ==> c[j..][k] == c[j + k];
  }

  lemma InternationalDigits(c: string)
    requires |c| == 11 && AllDigits(c) && c[0] == '1'
    ensures Digits("+1 (" + c[1..4] + ") " + c[4..7] + "-" + c[7..]) == c
  {
    PunctuationDigits();
    DigitParts(c[1..], 3, 6);
    assert c[1..][..3] == c[1..4] && c[1..][3..6] == c[4..7] && c[1..][6..] == c[7..];
    LayoutDigits("+1 (", c[1..4], ") ", c[4..7], "-", c[7..]);
    assert "1" + c[1..4] + c[4..7] + c[7..] == c;
  }

  /** Formatting never adds, drops or reorders a digit. */
  lemma FormatKeepsDigits(phone: Option<string>)
    ensures Digits(FormatPhoneNumber(phone)) == Digits(phone.GetOr(""))
  {
    if phone.Some? && phone.value != "" {
      var c := Digits(phone.value);
      if |c| == 7 {
        LocalDigits(c);
      } else if |c| == 10 {
        NationalDigits(c);
      } else if |c| == 11 && c[0] == '1' {
        InternationalDigits(c);
      } else if |c| == 11 {
        DigitsOfDigits(c);
      }
    }
  }

  /** The layout chosen for each count of digits; other counts give the input
      back untouched, non-digits included. */
  lemma FormatLayout(phone: string)
    requires phone != ""
    ensures var c, r := Digits(phone), FormatPhoneNumber(Some(phone));
      && (|c| == 7 ==> Fits(r, "###-####"))
      && (|c| == 10 ==> Fits(r, "(###) ###-####"))
      && (|c| == 11 && c[0] == '1' ==> Fits(r, "+1 (###) ###-####"))
      && (|c| == 11 && c[0] != '1' ==> r == c)
      && (|c| != 7 && |c| != 10 && |c| != 11 ==> r == phone)
  {
    var c := Digits(phone);
    if |c| == 7 {
      LocalLayout(c);
    } else if |c| == 10 {
      NationalLayout(c);
    } else if |c| == 11 && c[0] == '1' {
      InternationalLayout(c);
    }
  }

  lemma LocalLayout(c: string)
    requires |c| == 7 && AllDigits(c)
    ensures Fits(c[..3] + "-" + c[3..], "###-####")
  {
    var r, layout := c[..3] + "-" + c[3..], "###-####";
    forall i | 0 <= i < |r|
      ensures if layout[i] == '#' then IsDigit(r[i]) else r[i] == layout[i]
    {
      if i < 3 { assert r[i] == c[i]; }
      else if i > 3 { assert r[i] == c[i - 1]; }
    }
  }

  lemma NationalLayout(c: string)
    requires |c| == 10 && AllDigits(c)
    ensures Fits("(" + c[..3] + ") " + c[3..6] + "-" + c[6..], "(###) ###-####")
  {
    var r, layout := "(" + c[..3] + ") " + c[3..6] + "-" + c[6..], "(###) ###-####";
    forall i | 0 <= i < |r|
      ensures if layout[i] == '#' then IsDigit(r[i]) else r[i] == layout[i]
    {
      if 1 <= i < 4 { assert r[i] == c[i - 1]; }
      else if 6 <= i < 9 { assert r[i] == c[i - 3]; }
      else if 10 <= i { assert r[i] == c[i - 4]; }
    }
  }

  lemma InternationalLayout(c: string)
    requires |c| == 11 && AllDigits(c)
    ensures Fits("+1 (" + c[1..4] + ") " + c[4..7] + "-" + c[7..], "+1 (###) ###-####")
  {
    var r, layout := "+1 (" + c[1..4] + ") " + c[4..7] + "-" + c[7..], "+1 (###) ###-####";
    forall i | 0 <= i < |r|
      ensures if layout[i] == '#' then IsDigit(r[i]) else r[i] == layout[i]
    {
      if 4 <= i < 7 { assert r[i] == c[i - 3]; }
      else if 9 <= i < 12 { assert r[i] == c[i - 5]; }
      else if 13 <= i { assert r[i] == c[i - 6]; }
    }
  }

  /** Formatting an already formatted number changes nothing. */
  lemma FormatIdempotent(phone: Option<string>)
    ensures FormatPhoneNumber(Some(FormatPhoneNumber(phone))) == FormatPhoneNumber(phone)
  {
    var r := FormatPhoneNumber(phone);
    if r != "" {
      var c := Digits(phone.value);
      FormatKeepsDigits(phone);
      assert Digits(r) == c;
      if |c| != 7 && |c| != 10 && |c| != 11 {
        assert r == phone.value;
      } else if |c| == 11 && c[0] != '1' {
        assert r == c;
      }
    }
  }
}
