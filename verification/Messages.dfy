/** What an event keeps of a message: blanks squeezed, 500 characters, credential-shaped values redacted (pyfog/tasking.py). */
module Messages {
  const MAX_MESSAGE: nat := 500
  const REDACTED: string := "[redacted]"

  /** White space, as splitting and patterns see it. */
  predicate Blank(c: char) {
    '\t' <= c <= '\r' || '\U{1C}' <= c <= ' ' || c == '\U{85}' || c == '\U{A0}' || c == '\U{1680}'
    || '\U{2000}' <= c <= '\U{200A}' || c == '\U{2028}' || c == '\U{2029}' || c == '\U{202F}' || c == '\U{205F}' || c == '\U{3000}'
  }

  /** Words of `s` appended to `out` with single blanks between them; `gap` says a blank is due. */
  function Squeeze(s: string, out: string, gap: bool): string
    decreases |s|
  {
    if s == "" then out
    else if Blank(s[0]) then Squeeze(s[1..], out, true)
    else Squeeze(s[1..], out + (if gap && out != "" then " " else "") + [s[0]], false)
  }

  function Cut(s: string): string { if MAX_MESSAGE < |s| then s[..MAX_MESSAGE] else s }

  /** Case is ignored; two letters outside ASCII fold into it. */
  function Fold(c: char): char {
    if 'A' <= c <= 'Z' then c - 'A' + 'a' else if c == '\U{17F}' then 's' else if c == '\U{212A}' then 'k' else c
  }

  predicate Starts(s: string, word: string) {
    |word| <= |s| && forall i :: 0 <= i < |word| ==> Fold(s[i]) == word[i]
  }

  /** The length of the longest prefix that is all blank, or all not. */
  function Span(s: string, blank: bool): (n: nat)
    ensures n <= |s| && (forall i :: 0 <= i < n ==> Blank(s[i]) == blank) && (n < |s| ==> Blank(s[n]) != blank)
  {
    if s == "" || Blank(s[0]) != blank then 0 else 1 + Span(s[1..], blank)
  }

  predicate TokenChar(c: char) {
    'a' <= Fold(c) <= 'z' || '0' <= c <= '9' || c in "._~+/=-" || c == '\U{130}' || c == '\U{131}'
  }

  function TokenSpan(s: string): (n: nat)
    ensures n <= |s| && forall i :: 0 <= i < n ==> TokenChar(s[i])
  {
    if s == "" || !TokenChar(s[0]) then 0 else 1 + TokenSpan(s[1..])
  }

  /** What stays and what goes of a match at the front of a text; nothing goes when there is none. */
  datatype Match = Match(keep: nat, drop: nat)

  /** A bearer word, blanks, and the token after them. */
  function BearerAt(s: string): (m: Match)
    ensures m.keep + m.drop <= |s|
  {
    if !Starts(s, "bearer") then Match(0, 0)
    else
      var keep := 6 + Span(s[6..], true);
      if keep == 6 then Match(0, 0)
      else
        Match(keep, TokenSpan(s[keep..]))
  }

  function KeyLength(s: string): (n: nat)
    ensures n <= |s|
  {
    if Starts(s, "token") then 5
    else if Starts(s, "password") then 8
    else if Starts(s, "secret") then 6
    else if Starts(s, "clave") then 5
    else 0
  }

  /** A key, a colon or equals sign with blanks around it, and the value after them. */
  function KeyAt(s: string): (m: Match)
    ensures m.keep + m.drop <= |s|
  {
    var k := KeyLength(s);
    if k == 0 then Match(0, 0)
    else
      var sign := k + Span(s[k..], true);
      if sign == |s| || !(s[sign] == ':' || s[sign] == '=') then Match(0, 0)
      else
        var keep := sign + 1 + Span(s[sign + 1..], true);
        Match(keep, Span(s[keep..], false))
  }

  /** Replace every match, from the left, continuing after each. */
  function Redact(s: string, at: string -> Match): string
    decreases |s|
  {
    if s == "" then ""
    else
      var m := at(s);
      if 0 < m.keep && 0 < m.drop && m.keep + m.drop <= |s|
      then s[..m.keep] + REDACTED + Redact(s[m.keep + m.drop..], at)
      else [s[0]] + Redact(s[1..], at)
  }

  /** `safe_event_message`. */
  function SafeMessage(message: string): string {
    Redact(Redact(Cut(Squeeze(message, "", false)), BearerAt), KeyAt)
  }

  /* ----- which messages are kept as they are ----- */

  /** Every blank is a plain one and followed by a word character, if by anything. */
  predicate SingleBlanks(s: string) {
    && (forall i :: 0 <= i < |s| && Blank(s[i]) ==> s[i] == ' ')
    && forall i, j :: 0 <= i < |s| && j == i + 1 && j < |s| && Blank(s[i]) ==> !Blank(s[j])
  }

  /** And the text does not begin with one. */
  predicate Tidy(s: string) { SingleBlanks(s) && (s != "" ==> !Blank(s[0])) }

  lemma {:induction false} SqueezeTidies(s: string, out: string, gap: bool)
    requires Tidy(out) && (out != "" ==> !Blank(out[|out| - 1]))
    ensures Tidy(Squeeze(s, out, gap))
    decreases |s|
  {
    if s != "" {
      if Blank(s[0]) {
        SqueezeTidies(s[1..], out, true);
      } else {
        SqueezeTidies(s[1..], out + (if gap && out != "" then " " else "") + [s[0]], false);
      }
    }
  }

  /** The text without its blanks. */
  function Letters(s: string): string {
    if s == "" then "" else (if Blank(s[0]) then "" else [s[0]]) + Letters(s[1..])
  }

  lemma NoLetters()
    ensures Letters("") == ""
  {
  }

  lemma {:induction false} LettersConcat(a: string, b: string)
    ensures Letters(a + b) == Letters(a) + Letters(b)
  {
    if a == "" {
      assert a + b == b;
    } else {
      assert (a + b)[1..] == a[1..] + b;
      LettersConcat(a[1..], b);
    }
  }

  /** Squeezing drops and adds nothing but blanks. */
  lemma {:induction false} SqueezeKeepsLetters(s: string, out: string, gap: bool)
    ensures Letters(Squeeze(s, out, gap)) == Letters(out) + Letters(s)
    decreases |s|
  {
    if s == "" {
      assert Letters(out) + "" == Letters(out);
    } else if Blank(s[0]) {
      SqueezeKeepsLetters(s[1..], out, true);
    } else {
      var blank := if gap && out != "" then " " else "";
      SqueezeKeepsLetters(s[1..], out + blank + [s[0]], false);
      LettersConcat(out + blank, [s[0]]);
      LettersConcat(out, blank);
      assert Letters(" ") == "" && Letters("") == "" && Letters([s[0]]) == [s[0]];
    }
  }

  lemma JoinTidies(a: string, b: string)
    requires SingleBlanks(a) && SingleBlanks(b)
    requires a != "" && b != "" && Blank(a[|a| - 1]) ==> !Blank(b[0])
    ensures SingleBlanks(a + b)
  {
  }

  lemma PartsTidy(s: string, i: nat, j: nat)
    requires SingleBlanks(s) && i <= j <= |s|
    ensures SingleBlanks(s[i..j])
  {
    assert forall k :: 0 <= k < j - i ==> s[i..j][k] == s[i + k];
  }

  lemma ReplacedTidies(s: string, keep: nat, rest: string)
    requires SingleBlanks(s) && 0 < keep <= |s| && SingleBlanks(rest)
    ensures SingleBlanks(s[..keep] + REDACTED + rest) && s[..keep] + REDACTED + rest != ""
    ensures (s[..keep] + REDACTED + rest)[0] == s[0]
  {
    PartsTidy(s, 0, keep);
    JoinTidies(s[..keep], REDACTED);
    JoinTidies(s[..keep] + REDACTED, rest);
    hide SingleBlanks, Blank;
  }

  lemma PassedTidies(s: string, rest: string)
    requires SingleBlanks(s) && s != "" && SingleBlanks(rest)
    requires rest == "" <==> s[1..] == ""
    requires s[1..] != "" ==> (Blank(rest[0]) <==> Blank(s[1..][0]))
    ensures SingleBlanks([s[0]] + rest)
  {
    if rest != "" { assert Blank(s[0]) ==> !Blank(s[1]); }
    JoinTidies([s[0]], rest);
  }

  /** A redaction replaces words by words: no blank appears, and none moves to the front. */
  lemma {:induction false} RedactTidies(s: string, at: string -> Match)
    requires SingleBlanks(s)
    ensures SingleBlanks(Redact(s, at))
    ensures Redact(s, at) == "" <==> s == ""
    ensures s != "" ==> (Blank(Redact(s, at)[0]) <==> Blank(s[0]))
    decreases |s|
  {
    hide SingleBlanks, Blank;
    if s == "" {
    } else if 0 < at(s).keep && 0 < at(s).drop && at(s).keep + at(s).drop <= |s| {
      var m := at(s);
      PartsTidy(s, m.keep + m.drop, |s|);
      assert s[m.keep + m.drop..|s|] == s[m.keep + m.drop..];
      RedactTidies(s[m.keep + m.drop..], at);
      ReplacedTidies(s, m.keep, Redact(s[m.keep + m.drop..], at));
    } else {
      PartsTidy(s, 1, |s|);
      assert s[1..|s|] == s[1..];
      RedactTidies(s[1..], at);
      PassedTidies(s, Redact(s[1..], at));
    }
  }

  lemma CutTidies(s: string)
    requires Tidy(s)
    ensures Tidy(Cut(s))
  {
  }

  /** Stored messages are always tidy. */
  lemma StoredIsTidy(message: string)
    ensures Tidy(SafeMessage(message))
  {
    var squeezed := Squeeze(message, "", false);
    SqueezeTidies(message, "", false);
    CutTidies(squeezed);
    var cut := Cut(squeezed);
    RedactTidies(cut, BearerAt);
    RedactTidies(Redact(cut, BearerAt), KeyAt);
    hide Squeeze, Redact, SingleBlanks;
  }

  /** So a message with a leading, doubled or unusual blank is never stored as it was sent. */
  lemma {:induction false} UntidyIsChanged(message: string)
    requires !Tidy(message)
    ensures SafeMessage(message) != message
  {
    StoredIsTidy(message);
    hide SafeMessage;
  }

  /** No match anywhere. */
  predicate Free(s: string, at: string -> Match) {
    forall i :: 0 <= i < |s| ==> at(s[i..]).keep == 0 || at(s[i..]).drop == 0
  }

  lemma {:induction false} FreeIsKept(s: string, at: string -> Match)
    requires Free(s, at)
    ensures Redact(s, at) == s
    decreases |s|
  {
    if s != "" {
      assert s[0..] == s;
      assert forall i :: 0 <= i < |s[1..]| ==> s[1..][i..] == s[i + 1..];
      FreeIsKept(s[1..], at);
    }
  }

  lemma {:induction false} TidyIsSqueezed(s: string, out: string)
    requires SingleBlanks(s) && (s != "" ==> !Blank(s[|s| - 1])) && (out == "" ==> s == "" || !Blank(s[0]))
    ensures Squeeze(s, out, false) == out + s
    decreases |s|
  {
    if s == "" {
      assert out + s == out;
    } else if Blank(s[0]) {
      assert s[1..] != "" && !Blank(s[1]);
      assert s == [' '] + [s[1]] + s[2..];
      assert s[1..][1..] == s[2..];
      TidyIsSqueezed(s[2..], out + " " + [s[1]]);
      assert out + " " + [s[1]] + s[2..] == out + s;
      assert Squeeze(s, out, false) == Squeeze(s[1..], out, true);
    } else {
      TidyIsSqueezed(s[1..], out + [s[0]]);
      assert out + [s[0]] + s[1..] == out + s;
      assert out + "" + [s[0]] == out + [s[0]];
    }
  }

  /** With nothing credential-shaped in it, what is stored is the squeezed message up to its 500th character. */
  lemma {:induction false} PlainIsSqueezed(message: string)
    requires var s := Squeeze(message, "", false);
             var text := if |s| <= 500 then s else s[..500];
             Free(text, BearerAt) && Free(text, KeyAt)
    ensures var s := Squeeze(message, "", false); SafeMessage(message) == if |s| <= 500 then s else s[..500]
    ensures Letters(Squeeze(message, "", false)) == Letters(message)
  {
    hide Squeeze, Redact, Free, Letters;
    var text := Cut(Squeeze(message, "", false));
    FreeIsKept(text, BearerAt);
    FreeIsKept(text, KeyAt);
    SqueezeKeepsLetters(message, "", false);
    NoLetters();
    assert "" + Letters(message) == Letters(message);
  }

  /** A short tidy message without a trailing blank and without anything credential-shaped is stored as it was sent. */
  lemma {:induction false} PlainIsKept(message: string)
    requires Tidy(message) && |message| <= MAX_MESSAGE && (message != "" ==> !Blank(message[|message| - 1]))
    requires Free(message, BearerAt) && Free(message, KeyAt)
    ensures SafeMessage(message) == message
  {
    TidyIsSqueezed(message, "");
    FreeIsKept(message, BearerAt);
    FreeIsKept(message, KeyAt);
    assert "" + message == message;
    hide Squeeze, Redact, Free, Tidy;
  }
}
