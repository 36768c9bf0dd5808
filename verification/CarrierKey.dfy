/** carrier_key of apps/backend-api/scripts/import_old_portal_deals.py, on ASCII names. */
module CarrierKey {
  import opened Prelude

  predicate Ascii(s: string) { forall i | 0 <= i < |s| :: s[i] < 128 as char }

  function LowerChar(c: char): char { if 'A' <= c <= 'Z' then 'a' + (c - 'A') else c }

  function Lower(s: string): string { seq(|s|, i requires 0 <= i < |s| => LowerChar(s[i])) }

  predicate Plain(c: char) { 'a' <= c <= 'z' || '0' <= c <= '9' }

  /** re.sub(r"[^a-z0-9]+", "_", s); `inRun` says that the run of other characters before s has its underscore. */
  function Collapse(s: string, inRun: bool): string {
    if s == "" then ""
    else if Plain(s[0]) then [s[0]] + Collapse(s[1..], false)
    else (if inRun then "" else "_") + Collapse(s[1..], true)
  }

  function StripLeft(s: string): string { if s != "" && s[0] == '_' then StripLeft(s[1..]) else s }

  function StripRight(s: string): string { if s != "" && s[|s| - 1] == '_' then StripRight(s[..|s| - 1]) else s }

  /** None is a NULL carrier. */
  function CarrierKey(c: Option<string>): string
    requires c.Some? ==> Ascii(c.value)
  {
    var k := StripRight(StripLeft(Collapse(Lower(if c.Some? then c.value else ""), false)));
    if k == "" then "unknown" else k
  }

  predicate NoDouble(s: string) { forall i | 0 <= i < |s| - 1 :: !(s[i] == '_' && s[i + 1] == '_') }

  predicate KeyChars(s: string) { forall i | 0 <= i < |s| :: Plain(s[i]) || s[i] == '_' }

  /** Words of a-z and 0-9 joined by single underscores. */
  predicate NormalForm(s: string) {
    s != "" && KeyChars(s) && NoDouble(s) && s[0] != '_' && s[|s| - 1] != '_'
  }

  lemma {:induction false} CollapseShape(s: string, inRun: bool)
    ensures var k := Collapse(s, inRun); KeyChars(k) && NoDouble(k) && (inRun && k != "" ==> k[0] != '_')
  {
    if s != "" {
      CollapseShape(s[1..], !Plain(s[0]));
    }
  }

  lemma {:induction false} StripLeftShape(s: string)
    requires KeyChars(s) && NoDouble(s)
    ensures var k := StripLeft(s); KeyChars(k) && NoDouble(k) && (k != "" ==> k[0] != '_')
  {
    if s != "" && s[0] == '_' {
      assert forall i | 0 <= i < |s[1..]| :: s[1..][i] == s[i + 1];
      StripLeftShape(s[1..]);
    }
  }

  lemma {:induction false} StripRightShape(s: string)
    requires KeyChars(s) && NoDouble(s) && (s != "" ==> s[0] != '_')
    ensures var k := StripRight(s); KeyChars(k) && NoDouble(k) && (k != "" ==> k[0] != '_' && k[|k| - 1] != '_')
  {
    if s != "" && s[|s| - 1] == '_' {
      StripRightShape(s[..|s| - 1]);
    }
  }

  /** Every key is a normal form. */
  lemma KeyIsNormal(c: Option<string>)
    requires c.Some? ==> Ascii(c.value)
    ensures NormalForm(CarrierKey(c))
  {
    var s := Lower(if c.Some? then c.value else "");
    CollapseShape(s, false);
    StripLeftShape(Collapse(s, false));
    StripRightShape(StripLeft(Collapse(s, false)));
  }

  lemma {:induction false} CollapseNormal(s: string, inRun: bool)
    requires KeyChars(s) && NoDouble(s) && (inRun && s != "" ==> s[0] != '_')
    ensures Collapse(s, inRun) == s
  {
    if s != "" {
      assert forall i | 0 <= i < |s[1..]| :: s[1..][i] == s[i + 1];
      CollapseNormal(s[1..], !Plain(s[0]));
    }
  }

  /** The normal forms are exactly the names that are their own keys; so carrier_key is idempotent. */
  lemma FixedIffNormal(s: string)
    requires Ascii(s)
    ensures CarrierKey(Some(s)) == s <==> NormalForm(s)
  {
    KeyIsNormal(Some(s));
    if NormalForm(s) {
      assert Lower(s) == s by {
        assert forall i | 0 <= i < |s| :: LowerChar(s[i]) == s[i];
      }
      CollapseNormal(s, false);
    }
  }

  lemma NormalIsAscii(s: string)
    requires NormalForm(s)
    ensures Ascii(s)
  {
  }

  lemma KeyOfKey(c: Option<string>)
    requires c.Some? ==> Ascii(c.value)
    ensures Ascii(CarrierKey(c)) && CarrierKey(Some(CarrierKey(c))) == CarrierKey(c)
  {
    KeyIsNormal(c);
    NormalIsAscii(CarrierKey(c));
    FixedIffNormal(CarrierKey(c));
  }

  // ---- nothing of the name is lost but its punctuation ----

  function Letters(s: string): string {
    if s == "" then "" else (if Plain(s[0]) then [s[0]] else "") + Letters(s[1..])
  }

  function FirstLetter(s: string): string
    requires s != ""
  {
    if Plain(s[0]) then [s[0]] else ""
  }

  lemma HeadAndTail(s: string, t: string)
    requires s != ""
    ensures s + t != "" && FirstLetter(s + t) == FirstLetter(s) && (s + t)[1..] == s[1..] + t
  {
  }

  lemma Regroup(x: string, y: string, z: string)
    ensures x + (y + z) == x + y + z
  {
  }

  lemma LettersCons(s: string)
    requires s != ""
    ensures Letters(s) == FirstLetter(s) + Letters(s[1..])
  {
  }

  lemma {:induction false} LettersConcat(s: string, t: string)
    ensures Letters(s + t) == Letters(s) + Letters(t)
  {
    if s == "" {
      assert s + t == t;
    } else {
      hide Letters, FirstLetter;
      LettersConcat(s[1..], t);
      LettersCons(s);
      LettersCons(s + t);
      HeadAndTail(s, t);
      Regroup(FirstLetter(s), Letters(s[1..]), Letters(t));
    }
  }

  lemma {:induction false} CollapseKeepsLetters(s: string, inRun: bool)
    ensures Letters(Collapse(s, inRun)) == Letters(s)
  {
    if s != "" {
      CollapseKeepsLetters(s[1..], !Plain(s[0]));
      LettersConcat(if Plain(s[0]) then [s[0]] else if inRun then "" else "_", Collapse(s[1..], !Plain(s[0])));
    }
  }

  lemma {:induction false} StripKeepsLetters(s: string)
    ensures Letters(StripLeft(s)) == Letters(s) && Letters(StripRight(s)) == Letters(s)
    decreases |s|
  {
    if s != "" {
      StripKeepsLetters(s[1..]);
      StripKeepsLetters(s[..|s| - 1]);
      assert s == s[..|s| - 1] + [s[|s| - 1]];
      LettersConcat(s[..|s| - 1], [s[|s| - 1]]);
    }
  }

  /** The key has the letters and digits of the name in order, or is "unknown" when the name has none. */
  lemma KeyKeepsLetters(s: string)
    requires Ascii(s)
    ensures Letters(CarrierKey(Some(s))) == if Letters(Lower(s)) == "" then "unknown" else Letters(Lower(s))
  {
    var a := Collapse(Lower(s), false);
    hide Collapse, StripLeft, StripRight, Lower;
    CollapseKeepsLetters(Lower(s), false);
    StripKeepsLetters(a);
    StripKeepsLetters(StripLeft(a));
    var k := StripRight(StripLeft(a));
    if k == "" {
      assert Letters("unknown") == "unknown";
    } else {
      KeyIsNormal(Some(s));
    }
  }

  // ---- where the underscores stand ----

  /** One pass over s that owes an underscore from the end of a word to the start of the next: `started` says that
      a word has been written, `gap` that other characters came since. */
  function Joined(s: string, started: bool, gap: bool): string {
    if s == "" then ""
    else if Plain(s[0]) then (if started && gap then "_" else "") + [s[0]] + Joined(s[1..], true, false)
    else Joined(s[1..], started, true)
  }

  lemma {:induction false} StripRightCons(c: char, k: string)
    ensures StripRight([c] + k)
            == if StripRight(k) == "" then (if c == '_' then "" else [c]) else [c] + StripRight(k)
  {
    var s := [c] + k;
    if k == "" {
      assert s == [c];
      assert s[..0] == "";
    } else {
      assert s[|s| - 1] == k[|k| - 1] && s[..|s| - 1] == [c] + k[..|k| - 1];
      if k[|k| - 1] == '_' {
        StripRightCons(c, k[..|k| - 1]);
      }
    }
  }

  lemma LettersOfStripped(s: string, inRun: bool)
    ensures Letters(StripRight(Collapse(s, inRun))) == Letters(s)
  {
    CollapseKeepsLetters(s, inRun);
    StripKeepsLetters(Collapse(s, inRun));
  }

  /** Once a word has been written, stripping the collapsed rest is the one pass over it. */
  lemma {:induction false} StrippedIsJoined(s: string)
    ensures StripRight(Collapse(s, false)) == Joined(s, true, false)
    ensures Joined(s, true, true)
            == if Letters(s) == "" then "" else "_" + StripRight(Collapse(s, true))
    ensures Letters(s) == "" ==> StripRight(Collapse(s, true)) == ""
  {
    if s != "" {
      var rest := s[1..];
      StrippedIsJoined(rest);
      LettersOfStripped(rest, true);
      if Plain(s[0]) {
        LettersCons(s);
        hide Collapse, StripRight, Joined, Letters;
        CollapsePlain(s, false);
        CollapsePlain(s, true);
        JoinedPlain(s);
        StripRightCons(s[0], Collapse(rest, false));
      } else {
        assert Letters(s) == Letters(rest);
        assert Joined(s, true, false) == Joined(rest, true, true) == Joined(s, true, true);
        hide Collapse, StripRight, Joined, Letters;
        CollapseOther(s);
        StripRightCons('_', Collapse(rest, true));
      }
    }
  }

  lemma CollapsePlain(s: string, inRun: bool)
    requires s != "" && Plain(s[0])
    ensures Collapse(s, inRun) == [s[0]] + Collapse(s[1..], false)
  {
  }

  lemma CollapseOther(s: string)
    requires s != "" && !Plain(s[0])
    ensures Collapse(s, false) == ['_'] + Collapse(s[1..], true)
    ensures Collapse(s, true) == Collapse(s[1..], true)
  {
  }

  lemma JoinedPlain(s: string)
    requires s != "" && Plain(s[0])
    ensures Joined(s, true, false) == [s[0]] + Joined(s[1..], true, false)
    ensures Joined(s, true, true) == "_" + ([s[0]] + Joined(s[1..], true, false))
  {
    Regroup("_", [s[0]], Joined(s[1..], true, false));
    assert "" + [s[0]] == [s[0]];
  }

  lemma {:induction false} FirstWordIsJoined(s: string, inRun: bool, gap: bool)
    ensures StripRight(StripLeft(Collapse(s, inRun))) == Joined(s, false, gap)
  {
    if s != "" {
      var rest := s[1..];
      if Plain(s[0]) {
        StrippedIsJoined(rest);
        StripRightCons(s[0], Collapse(rest, false));
        assert "" + [s[0]] == [s[0]];
      } else {
        FirstWordIsJoined(rest, true, true);
        assert ("_" + Collapse(rest, true))[1..] == Collapse(rest, true);
        assert "" + Collapse(rest, true) == Collapse(rest, true);
      }
    }
  }

  /** The key is that one pass, or "unknown" when there is no word. */
  lemma KeyIsJoined(s: string)
    requires Ascii(s)
    ensures var j := Joined(Lower(s), false, false); CarrierKey(Some(s)) == if j == "" then "unknown" else j
    ensures CarrierKey(None) == "unknown"
  {
    FirstWordIsJoined(Lower(s), false, false);
  }

  /** The state in which the pass leaves a text. */
  function GapAfter(s: string, gap: bool): bool { if s == "" then gap else !Plain(s[|s| - 1]) }

  lemma {:induction false} JoinedConcat(a: string, x: string, started: bool, gap: bool)
    ensures Joined(a + x, started, gap)
            == Joined(a, started, gap) + Joined(x, started || Letters(a) != "", GapAfter(a, gap))
  {
    if a == "" {
      assert a + x == x;
    } else {
      var u := a + x;
      assert u[0] == a[0] && u[1..] == a[1..] + x;
      JoinedConcat(a[1..], x, started || Plain(a[0]), !Plain(a[0]));
      if Plain(a[0]) {
        var head := (if started && gap then "_" else "") + [a[0]];
        assert head + (Joined(a[1..], true, false) + Joined(x, true, GapAfter(a, gap)))
            == head + Joined(a[1..], true, false) + Joined(x, true, GapAfter(a, gap));
      }
    }
  }

  lemma {:induction false} SecondWord(b: string, gap: bool)
    requires Letters(b) != ""
    ensures Joined(b, true, true) == "_" + Joined(b, false, gap)
  {
    if !Plain(b[0]) {
      assert Letters(b) == Letters(b[1..]);
      SecondWord(b[1..], true);
    } else {
      assert "" + [b[0]] == [b[0]];
    }
  }

  predicate NoWord(g: string) { forall i | 0 <= i < |g| :: !Plain(g[i]) }

  lemma {:induction false} OverGap(g: string, b: string, started: bool, gap: bool)
    requires NoWord(g) && g != ""
    ensures Joined(g + b, started, gap) == Joined(b, started, true)
  {
    var u := g + b;
    assert u[0] == g[0] && u[1..] == g[1..] + b;
    if |g| == 1 {
      assert g[1..] + b == b;
    } else {
      OverGap(g[1..], b, started, true);
    }
  }

  predicate AlphaNumeric(c: char) { 'a' <= c <= 'z' || 'A' <= c <= 'Z' || '0' <= c <= '9' }

  predicate HasWord(s: string) { exists i | 0 <= i < |s| :: AlphaNumeric(s[i]) }

  lemma {:induction false} WordsHaveLetters(s: string)
    ensures HasWord(s) <==> Letters(Lower(s)) != ""
  {
    if s != "" {
      WordsHaveLetters(s[1..]);
      assert Lower(s)[1..] == Lower(s[1..]) && Lower(s)[0] == LowerChar(s[0]);
      if i :| 0 <= i < |s[1..]| && AlphaNumeric(s[1..][i]) {
        assert s[i + 1] == s[1..][i];
      }
      if i :| 0 < i < |s| && AlphaNumeric(s[i]) {
        assert s[1..][i - 1] == s[i];
      }
    }
  }

  /** Two parts with a word each, set off by any characters that are no letters or digits, have the keys of the parts
      joined by one underscore, whatever and however many the characters between them are. */
  lemma KeyJoins(a: string, g: string, b: string)
    requires Ascii(a) && Ascii(g) && Ascii(b) && HasWord(a) && HasWord(b) && g != "" && !HasWord(g)
    ensures Ascii(a + g + b)
    ensures CarrierKey(Some(a + g + b)) == CarrierKey(Some(a)) + "_" + CarrierKey(Some(b))
  {
    LowerParts(a, g, b);
    hide Joined, Lower, CarrierKey, Letters, HasWord, NoWord, Ascii;
    WordsHaveLetters(a);
    WordsHaveLetters(b);
    JoinedParts(Lower(a), Lower(g), Lower(b));
    JoinedIsWord(Lower(a));
    JoinedIsWord(Lower(b));
    KeyIsJoined(a);
    KeyIsJoined(b);
    KeyIsJoined(a + g + b);
    assert |Joined(Lower(a), false, false) + "_" + Joined(Lower(b), false, false)| > 0;
  }

  lemma LowerParts(a: string, g: string, b: string)
    requires Ascii(a) && Ascii(g) && Ascii(b) && g != "" && !HasWord(g)
    ensures Ascii(a + g + b) && Lower(a + g + b) == Lower(a) + Lower(g) + Lower(b)
    ensures NoWord(Lower(g)) && Lower(g) != ""
  {
  }

  lemma JoinedParts(a: string, g: string, b: string)
    requires Letters(a) != "" && Letters(b) != "" && NoWord(g) && g != ""
    ensures Joined(a + g + b, false, false) == Joined(a, false, false) + "_" + Joined(b, false, false)
  {
    hide Joined, Letters;
    assert a + g + b == a + (g + b);
    JoinedConcat(a, g + b, false, false);
    OverGap(g, b, true, GapAfter(a, false));
    SecondWord(b, false);
    Regroup(Joined(a, false, false), "_", Joined(b, false, false));
  }

  lemma JoinedIsWord(s: string)
    ensures Joined(s, false, false) == "" <==> Letters(s) == ""
  {
    FirstWordIsJoined(s, false, false);
    CollapseKeepsLetters(s, false);
    StripKeepsLetters(Collapse(s, false));
    StripKeepsLetters(StripLeft(Collapse(s, false)));
    NoLettersNoWord(s, false);
  }

  lemma {:induction false} NoLettersNoWord(s: string, gap: bool)
    ensures Letters(s) == "" ==> Joined(s, false, gap) == ""
  {
    if s != "" {
      NoLettersNoWord(s[1..], true);
    }
  }
}
