/** formatPhone of packages/shared/index.ts. */
module Phone {
  import opened Decimal

  /** replace(/\D/g, '') */
  function Digits(s: string): string {
    if s == "" then "" else (if IsDigit(s[0]) then [s[0]] else "") + Digits(s[1..])
  }

  function Format(phone: string): string {
    var c := Digits(phone);
    if |c| == 11 && c[0] == '1' then "+1 (" + c[1..4] + ") " + c[4..7] + "-" + c[7..]
    else if |c| == 10 then "(" + c[..3] + ") " + c[3..6] + "-" + c[6..]
    else phone
  }

  lemma {:induction false} DigitsConcat(s: string, t: string)
    ensures Digits(s + t) == Digits(s) + Digits(t)
  {
    if s == "" {
      assert s + t == t;
    } else {
      var u := s + t;
      assert u[0] == s[0] && u[1..] == s[1..] + t;
      DigitsConcat(s[1..], t);
      assert Digits(u) == (if IsDigit(u[0]) then [u[0]] else "") + Digits(u[1..]);
    }
  }

  lemma {:induction false} DigitsAreDigits(s: string)
    ensures AllDigits(Digits(s))
  {
    if s != "" {
      DigitsAreDigits(s[1..]);
    }
  }

  lemma {:induction false} DigitsOfDigits(s: string)
    requires AllDigits(s)
    ensures Digits(s) == s
  {
    if s != "" {
      DigitsOfDigits(s[1..]);
    }
  }

  lemma NoDigits()
    ensures Digits(") ") == "" && Digits("-") == "" && Digits("+1 (") == "1" && Digits("(") == ""
  {
  }

  lemma AppendDigits(s: string, d: string)
    requires AllDigits(d)
    ensures Digits(s + d) == Digits(s) + d
  {
    DigitsConcat(s, d);
    DigitsOfDigits(d);
  }

  /** Text and the digits after it, set off by a gap without digits. */
  lemma AppendAfterGap(s: string, gap: string, d: string)
    requires AllDigits(d) && Digits(gap) == ""
    ensures Digits(s + gap + d) == Digits(s) + d
  {
    DigitsConcat(s, gap);
    assert Digits(s) + "" == Digits(s);
    AppendDigits(s + gap, d);
  }

  lemma LayoutKeepsDigits(p: string, a: string, b: string, c: string)
    requires AllDigits(a) && AllDigits(b) && AllDigits(c)
    ensures Digits(p + a + ") " + b + "-" + c) == Digits(p) + a + b + c
  {
    NoDigits();
    hide Digits, AllDigits;
    AppendDigits(p, a);
    var pa := p + a;
    AppendAfterGap(pa, ") ", b);
    var pab := pa + ") " + b;
    AppendAfterGap(pab, "-", c);
  }

  /** Formatting never changes the number, and formatting again changes nothing. */
  lemma FormatKeepsNumber(phone: string)
    ensures Digits(Format(phone)) == Digits(phone) && Format(Format(phone)) == Format(phone)
  {
    var c := Digits(phone);
    DigitsAreDigits(phone);
    NoDigits();
    if |c| == 11 && c[0] == '1' {
      assert c == "1" + c[1..4] + c[4..7] + c[7..];
      LayoutKeepsDigits("+1 (", c[1..4], c[4..7], c[7..]);
    } else if |c| == 10 {
      assert c == "" + c[..3] + c[3..6] + c[6..];
      LayoutKeepsDigits("(", c[..3], c[3..6], c[6..]);
    }
  }

  /** Two texts of a number that formatPhone lays out look alike exactly when they have the same digits. */
  lemma SameNumberIff(p: string, q: string)
    requires |Digits(p)| == 10 || (|Digits(p)| == 11 && Digits(p)[0] == '1')
    ensures Format(p) == Format(q) <==> Digits(p) == Digits(q)
  {
    FormatKeepsNumber(p);
    FormatKeepsNumber(q);
  }

  /** The layout, character by character: (ddd) ddd-dddd for ten digits, +1 (ddd) ddd-dddd for eleven that begin with 1,
      and any other text as it stands. */
  lemma LayoutIs(phone: string)
    ensures var c, r := Digits(phone), Format(phone);
      if |c| == 10 then
        && |r| == 14 && r[0] == '(' && r[4] == ')' && r[5] == ' ' && r[9] == '-'
        && r[1..4] == c[..3] && r[6..9] == c[3..6] && r[10..] == c[6..]
      else if |c| == 11 && c[0] == '1' then
        && |r| == 17 && r[..4] == "+1 (" && r[7] == ')' && r[8] == ' ' && r[12] == '-'
        && r[4..7] == c[1..4] && r[9..12] == c[4..7] && r[13..] == c[7..]
      else r == phone
  {
    hide Digits;
  }
}
