/** What redaction promises: no bearer token and no keyed value of a message survives in the event log (pyfog/tasking.py). */
module Redaction {
  import opened Messages

  predicate Matched(m: Match) { 0 < m.keep && 0 < m.drop }

  lemma {:induction false} SpanIs(s: string, blank: bool, n: nat)
    requires n <= |s| && (forall i :: 0 <= i < n ==> Blank(s[i]) == blank) && (n < |s| ==> Blank(s[n]) != blank)
    ensures Span(s, blank) == n
  {
    if n > 0 { SpanIs(s[1..], blank, n - 1); }
  }

  /** Two texts agree before `p`; there both end, or the first goes on with a bracket. */
  predicate AgreeTo(o: string, s: string, p: nat) {
    p <= |o| && p <= |s| && o[..p] == s[..p] && (if p < |o| then o[p] == '[' else p == |s|)
  }

  lemma SpanAgrees(o: string, s: string, p: nat, from: nat)
    requires AgreeTo(o, s, p) && from <= p && from + Span(o[from..], true) < p
    ensures Span(s[from..], true) == Span(o[from..], true)
  {
    var n := Span(o[from..], true);
    assert forall i :: 0 <= i < p ==> o[i] == o[..p][i] && s[i] == s[..p][i];
    SpanIs(s[from..], true, n);
  }

  /** The blanks from a place before a bracket end at the bracket at the latest. */
  lemma SpanStops(o: string, s: string, p: nat, from: nat)
    requires AgreeTo(o, s, p) && from <= p
    ensures from + Span(o[from..], true) <= p
  {
    var n := Span(o[from..], true);
    assert p < |o| ==> o[from..][p - from] == o[p] && !Blank(o[p]);
  }

  lemma WordAgrees(o: string, s: string, p: nat, word: string)
    requires AgreeTo(o, s, p) && Starts(o, word) && forall i :: 0 <= i < |word| ==> 'a' <= word[i] <= 'z'
    ensures |word| <= p && Starts(s, word)
  {
    assert forall i :: 0 <= i < |word| ==> Fold(o[i]) == word[i] && o[i] != '[';
    assert forall i :: 0 <= i < p ==> o[i] == o[..p][i] && s[i] == s[..p][i];
  }

  /** A bearer token after the first change was one before it, in the same place. */
  lemma BearerCarries(o: string, s: string, p: nat)
    requires AgreeTo(o, s, p) && Matched(BearerAt(o))
    ensures Matched(BearerAt(s)) && BearerAt(s).keep == BearerAt(o).keep < p
  {
    WordAgrees(o, s, p, "bearer");
    SpanStops(o, s, p, 6);
    var keep := BearerAt(o).keep;
    assert TokenChar(o[keep..][0]);
    assert keep < p;
    SpanAgrees(o, s, p, 6);
    assert s[..p][keep] == o[..p][keep];
    assert s[keep..][0] == o[keep..][0];
  }

  lemma KeyAgrees(o: string, s: string, p: nat)
    requires AgreeTo(o, s, p) && 0 < KeyLength(o)
    ensures KeyLength(o) <= p && KeyLength(s) == KeyLength(o)
  {
    if Starts(o, "token") {
      WordAgrees(o, s, p, "token");
    } else if Starts(o, "password") {
      WordAgrees(o, s, p, "password");
    } else if Starts(o, "secret") {
      WordAgrees(o, s, p, "secret");
    } else {
      WordAgrees(o, s, p, "clave");
    }
    OneKey(s);
    OneKey(o);
  }

  /** Keys are told apart by their first letters. */
  lemma OneKey(s: string)
    ensures Starts(s, "token") ==> Fold(s[0]) == 't'
    ensures Starts(s, "password") ==> Fold(s[0]) == 'p'
    ensures Starts(s, "secret") ==> Fold(s[0]) == 's'
    ensures Starts(s, "clave") ==> Fold(s[0]) == 'c'
  {
  }

  /** Key, sign and value of a match. */
  lemma KeyParts(o: string) returns (sign: nat)
    requires Matched(KeyAt(o))
    ensures var k, keep := KeyLength(o), KeyAt(o).keep;
            && 0 < k <= sign < keep < |o| && sign == k + Span(o[k..], true) && (o[sign] == ':' || o[sign] == '=')
            && keep == sign + 1 + Span(o[sign + 1..], true) && !Blank(o[keep])
  {
    sign := KeyLength(o) + Span(o[KeyLength(o)..], true);
    assert o[KeyAt(o).keep..][0] == o[KeyAt(o).keep];
  }

  lemma PartsMatch(s: string, sign: nat, keep: nat)
    requires 0 < KeyLength(s) <= sign < keep < |s| && sign == KeyLength(s) + Span(s[KeyLength(s)..], true)
    requires s[sign] == ':' || s[sign] == '='
    requires keep == sign + 1 + Span(s[sign + 1..], true) && !Blank(s[keep])
    ensures Matched(KeyAt(s)) && KeyAt(s).keep == keep
  {
    assert s[keep..][0] == s[keep];
  }

  lemma SamePrefix(o: string, s: string, p: nat)
    requires AgreeTo(o, s, p)
    ensures forall i :: 0 <= i < p ==> i < |o| && i < |s| && o[i] == s[i]
  {
    assert forall i :: 0 <= i < p ==> o[i] == o[..p][i] && s[i] == s[..p][i];
  }

  /** So was a keyed value, unless it begins with the change. */
  lemma KeyCarries(o: string, s: string, p: nat)
    requires AgreeTo(o, s, p) && Matched(KeyAt(o))
    ensures KeyAt(o).keep <= p
    ensures KeyAt(o).keep < p ==> Matched(KeyAt(s)) && KeyAt(s).keep == KeyAt(o).keep
  {
    hide KeyAt, KeyLength, Span;
    var sign := KeyParts(o);
    KeyAgrees(o, s, p);
    var keep := KeyAt(o).keep;
    SamePrefix(o, s, p);
    SpanStops(o, s, p, KeyLength(o));
    SpanStops(o, s, p, sign + 1);
    if keep < p {
      SpanAgrees(o, s, p, KeyLength(o));
      SpanAgrees(o, s, p, sign + 1);
      PartsMatch(s, sign, keep);
    }
  }

  ghost predicate Sized(at: string -> Match) { forall x :: at(x).keep + at(x).drop <= |x| }

  lemma RedactMatched(s: string, at: string -> Match)
    requires Sized(at) && Matched(at(s))
    ensures var m := at(s);
            m.keep + m.drop <= |s| && Redact(s, at) == s[..m.keep] + REDACTED + Redact(s[m.keep + m.drop..], at)
  {
  }

  lemma RedactPassed(s: string, at: string -> Match)
    requires s != "" && !Matched(at(s))
    ensures Redact(s, at) == [s[0]] + Redact(s[1..], at)
  {
  }

  lemma NothingLeft(at: string -> Match)
    ensures Redact("", at) == ""
  {
  }

  lemma RedactFirst(s: string, at: string -> Match)
    requires s != ""
    ensures Redact(s, at) != "" && Redact(s, at)[0] == s[0]
  {
  }

  /** The parts of a text with a replaced value. */
  lemma Spliced(s: string, keep: nat, rest: string)
    requires keep <= |s| && 0 < keep
    ensures var o := s[..keep] + REDACTED + rest;
            && (keep < |s| ==> AgreeTo(o, s, keep)) && o[keep..] == REDACTED + rest
            && (forall i :: 0 <= i < keep ==> o[i] == s[i])
            && (forall i :: keep <= i < keep + |REDACTED| ==> o[i] == REDACTED[i - keep])
            && forall i :: keep + |REDACTED| <= i < |o| ==> o[i..] == rest[i - keep - |REDACTED|..]
  {
    var o := s[..keep] + REDACTED + rest;
    assert o == s[..keep] + (REDACTED + rest);
    assert o[keep] == REDACTED[0];
  }

  lemma SplicedAgrees(s: string, keep: nat, rest: string)
    requires 0 < keep < |s|
    ensures AgreeTo(s[..keep] + REDACTED + rest, s, keep)
  {
    Spliced(s, keep, rest);
  }

  lemma Shifted(c: char, o: string, s: string, p: nat)
    requires AgreeTo(o, s, p)
    ensures AgreeTo([c] + o, [c] + s, p + 1)
  {
    assert ([c] + o)[..p + 1] == [c] + o[..p];
    assert ([c] + s)[..p + 1] == [c] + s[..p];
  }

  /** The text from `p` on is a placeholder for the value, up to `q`, of the match at `j`. */
  ghost predicate Changed(s: string, at: string -> Match, p: nat, j: nat, q: nat) {
    && j <= p <= q <= |s| && Matched(at(s[j..])) && p == j + at(s[j..]).keep && q == p + at(s[j..]).drop
    && p <= |Redact(s, at)| && Redact(s, at)[p..] == REDACTED + Redact(s[q..], at)
  }

  /** Where a redaction first changes a text. */
  lemma {:induction false} FirstChange(s: string, at: string -> Match) returns (p: nat, j: nat, q: nat)
    requires Sized(at)
    ensures AgreeTo(Redact(s, at), s, p) && j <= |s| && q <= |s|
    ensures p < |Redact(s, at)| ==> Changed(s, at, p, j, q)
    decreases |s|
  {
    hide Redact, Sized;
    if s == "" {
      NothingLeft(at);
      p, j, q := 0, 0, 0;
    } else if Matched(at(s)) {
      RedactMatched(s, at);
      assert s[0..] == s;
      p, j, q := at(s).keep, 0, at(s).keep + at(s).drop;
      Spliced(s, p, Redact(s[q..], at));
    } else {
      RedactPassed(s, at);
      var p', j', q' := FirstChange(s[1..], at);
      p, j, q := p' + 1, j' + 1, q' + 1;
      assert s == [s[0]] + s[1..];
      Shifted(s[0], Redact(s[1..], at), s[1..], p');
      assert s[1..][j'..] == s[j..] && s[1..][q'..] == s[q..];
      assert ([s[0]] + Redact(s[1..], at))[p..] == Redact(s[1..], at)[p'..];
    }
  }

  /** The text from inside the part in front of the value. */
  lemma Inside(o: string, s: string, keep: nat, i: nat)
    requires AgreeTo(o, s, keep) && i <= keep
    ensures AgreeTo(o[i..], s[i..], keep - i)
  {
    assert o[i..][..keep - i] == o[..keep][i..];
    assert s[i..][..keep - i] == s[..keep][i..];
  }

  /* ----- bearer tokens ----- */

  lemma BearerIsSized()
    ensures Sized(BearerAt) && Sized(KeyAt)
  {
  }

  lemma NoBearer(o: string)
    requires o != "" && Fold(o[0]) != 'b'
    ensures !Matched(BearerAt(o))
  {
  }

  predicate BearerFree(s: string) {
    forall i :: 0 <= i < |s| ==> !Matched(BearerAt(s[i..]))
  }

  lemma EmptyIsFree()
    ensures BearerFree("") && KeysRedacted("")
  {
  }

  lemma FreeAt(s: string, i: nat)
    requires BearerFree(s) && i < |s|
    ensures !Matched(BearerAt(s[i..]))
  {
  }

  lemma TailIsFree(s: string, n: nat)
    requires BearerFree(s) && n <= |s|
    ensures BearerFree(s[n..])
  {
    hide BearerAt;
    assert forall i :: 0 <= i < |s| - n ==> s[n..][i..] == s[n + i..];
  }

  /** A text is free when its first place is and the rest are. */
  lemma FreeFromFirst(c: char, rest: string)
    requires !Matched(BearerAt([c] + rest)) && BearerFree(rest)
    ensures BearerFree([c] + rest)
  {
    hide BearerAt;
    var o := [c] + rest;
    forall i | 0 <= i < |o| ensures !Matched(BearerAt(o[i..])) {
      if i == 0 { assert o[0..] == o; } else { assert o[i..] == rest[i - 1..]; }
    }
  }

  lemma PlaceholderIsFree(o: string, i: nat)
    requires i < |REDACTED| && o != "" && o[0] == REDACTED[i]
    ensures !Matched(BearerAt(o))
  {
    NoBearer(o);
  }

  /** A text with a replaced value is free when no place up to the value matches and the rest is free. */
  lemma FreeWhenSpliced(s: string, keep: nat, rest: string)
    requires 0 < keep < |s| && BearerFree(rest)
    requires var o := s[..keep] + REDACTED + rest; forall i :: 0 <= i < keep ==> !Matched(BearerAt(o[i..]))
    ensures BearerFree(s[..keep] + REDACTED + rest)
  {
    hide BearerAt;
    var o := s[..keep] + REDACTED + rest;
    Spliced(s, keep, rest);
    forall i | keep <= i < |o| ensures !Matched(BearerAt(o[i..])) {
      if i < keep + |REDACTED| { PlaceholderIsFree(o[i..], i - keep); }
    }
  }

  lemma BearerWord(s: string, i: nat)
    requires Matched(BearerAt(s)) && 1 <= i < BearerAt(s).keep
    ensures i < |s| && Fold(s[i]) != 'b'
  {
    if 6 <= i { assert Blank(s[6..][i - 6]); }
  }

  /** After the first redaction no bearer token is left anywhere. */
  lemma {:induction false} BearersAreRedacted(s: string)
    ensures BearerFree(Redact(s, BearerAt))
    decreases |s|
  {
    hide BearerAt, Redact, BearerFree, AgreeTo, Fold, Sized, Changed;
    BearerIsSized();
    if s == "" {
      NothingLeft(BearerAt);
      EmptyIsFree();
    } else if Matched(BearerAt(s)) {
      var keep, end := BearerAt(s).keep, BearerAt(s).keep + BearerAt(s).drop;
      BearersAreRedacted(s[end..]);
      RedactMatched(s, BearerAt);
      var o := s[..keep] + REDACTED + Redact(s[end..], BearerAt);
      Spliced(s, keep, Redact(s[end..], BearerAt));
      forall i | 0 <= i < keep ensures !Matched(BearerAt(o[i..])) {
        if i == 0 {
          assert o[0..] == o;
          if Matched(BearerAt(o)) { BearerCarries(o, s, keep); }
        } else {
          BearerWord(s, i);
          NoBearer(o[i..]);
        }
      }
      FreeWhenSpliced(s, keep, Redact(s[end..], BearerAt));
    } else {
      BearersAreRedacted(s[1..]);
      RedactPassed(s, BearerAt);
      var p, j, q := FirstChange(s, BearerAt);
      if Matched(BearerAt(Redact(s, BearerAt))) { BearerCarries(Redact(s, BearerAt), s, p); }
      FreeFromFirst(s[0], Redact(s[1..], BearerAt));
    }
  }

  lemma KeptOutInFront(s: string, keep: nat, rest: string)
    requires BearerFree(s) && 0 < keep < |s| && BearerFree(rest)
    ensures BearerFree(s[..keep] + REDACTED + rest)
  {
    hide BearerAt, AgreeTo, BearerFree;
    var o := s[..keep] + REDACTED + rest;
    SplicedAgrees(s, keep, rest);
    forall i | 0 <= i < keep ensures !Matched(BearerAt(o[i..])) {
      FreeAt(s, i);
      Inside(o, s, keep, i);
      if Matched(BearerAt(o[i..])) { BearerCarries(o[i..], s[i..], keep - i); }
    }
    FreeWhenSpliced(s, keep, rest);
  }

  /** The second redaction brings none back. */
  lemma {:induction false} KeysKeepBearersOut(s: string)
    requires BearerFree(s)
    ensures BearerFree(Redact(s, KeyAt))
    decreases |s|
  {
    hide BearerAt, KeyAt, Redact, AgreeTo, Sized, Changed, BearerFree;
    BearerIsSized();
    if s == "" {
      NothingLeft(KeyAt);
    } else if Matched(KeyAt(s)) {
      var end := KeyAt(s).keep + KeyAt(s).drop;
      RedactMatched(s, KeyAt);
      TailIsFree(s, end);
      KeysKeepBearersOut(s[end..]);
      KeptOutInFront(s, KeyAt(s).keep, Redact(s[end..], KeyAt));
    } else {
      TailIsFree(s, 1);
      KeysKeepBearersOut(s[1..]);
      RedactPassed(s, KeyAt);
      FreeAt(s, 0);
      var p, j, q := FirstChange(s, KeyAt);
      assert s[0..] == s;
      if Matched(BearerAt(Redact(s, KeyAt))) { BearerCarries(Redact(s, KeyAt), s, p); }
      FreeFromFirst(s[0], Redact(s[1..], KeyAt));
    }
  }

  /* ----- keyed values ----- */

  /** A key here has the placeholder for its value, and nothing behind it up to the next blank. */
  predicate KeyOk(o: string) {
    var m := KeyAt(o);
    Matched(m) ==> o[m.keep..m.keep + m.drop] == REDACTED
  }

  predicate KeysRedacted(o: string) {
    forall i :: 0 <= i < |o| ==> KeyOk(o[i..])
  }

  lemma KeysFromFirst(c: char, rest: string)
    requires KeyOk([c] + rest) && KeysRedacted(rest)
    ensures KeysRedacted([c] + rest)
  {
    hide KeyOk;
    var o := [c] + rest;
    forall i | 0 <= i < |o| ensures KeyOk(o[i..]) {
      if i == 0 { assert o[0..] == o; } else { assert o[i..] == rest[i - 1..]; }
    }
  }

  lemma KeysWhenSpliced(s: string, keep: nat, rest: string)
    requires 0 < keep < |s| && KeysRedacted(rest)
    requires var o := s[..keep] + REDACTED + rest; forall i :: 0 <= i < keep ==> KeyOk(o[i..])
    ensures KeysRedacted(s[..keep] + REDACTED + rest)
  {
    hide KeyOk;
    var o := s[..keep] + REDACTED + rest;
    Spliced(s, keep, rest);
    forall i | keep <= i < |o| ensures KeyOk(o[i..]) {
      if i < keep + |REDACTED| {
        assert o[i..][0] == REDACTED[i - keep];
        assert i + 1 < keep + |REDACTED| ==> o[i..][1] == REDACTED[i + 1 - keep];
        NoKeyInPlaceholder(o[i..], i - keep);
      }
    }
  }

  /** No key begins here: the letters are wrong. */
  lemma NoKey(o: string)
    requires o != ""
    requires Fold(o[0]) == 't' ==> |o| < 2 || Fold(o[1]) != 'o'
    requires Fold(o[0]) == 's' ==> |o| < 2 || Fold(o[1]) != 'e'
    requires Fold(o[0]) == 'c' ==> |o| < 2 || Fold(o[1]) != 'l'
    requires Fold(o[0]) != 'p'
    ensures KeyLength(o) == 0 && KeyOk(o)
  {
    OneKey(o);
  }

  lemma NoKeyInPlaceholder(o: string, i: nat)
    requires i < |REDACTED| && o != "" && o[0] == REDACTED[i]
    requires i + 1 < |REDACTED| ==> |o| >= 2 && o[1] == REDACTED[i + 1]
    ensures KeyOk(o)
  {
    NoKey(o);
  }

  /** What stands between a key and its value. */
  lemma KeyGap(s: string, i: nat)
    requires Matched(KeyAt(s)) && KeyLength(s) <= i < KeyAt(s).keep
    ensures i < |s| && (Blank(s[i]) || s[i] == ':' || s[i] == '=')
    ensures KeyLength(s) < KeyAt(s).keep
  {
    var k := KeyLength(s);
    var sign := k + Span(s[k..], true);
    if i < sign { assert Blank(s[k..][i - k]); }
    if sign < i { assert Blank(s[sign + 1..][i - sign - 1]); }
  }

  lemma GapIsNoLetter(c: char)
    requires Blank(c) || c == ':' || c == '='
    ensures !('a' <= Fold(c) <= 'z')
  {
  }

  lemma KeyLetter(s: string, i: nat)
    requires 1 <= i < KeyLength(s)
    ensures Fold(s[i]) != 'p'
    ensures Fold(s[i]) == 't' ==> i + 1 == KeyLength(s)
    ensures Fold(s[i]) == 's' ==> i + 1 < KeyLength(s) && Fold(s[i + 1]) != 'e'
    ensures Fold(s[i]) == 'c' ==> i + 1 < KeyLength(s) && Fold(s[i + 1]) != 'l'
  {
  }

  /** No key begins inside another one. */
  lemma KeyWord(s: string, o: string, i: nat)
    requires Matched(KeyAt(s)) && 1 <= i < KeyAt(s).keep && AgreeTo(o, s, KeyAt(s).keep)
    ensures KeyOk(o[i..])
  {
    hide KeyAt, KeyOk, KeyLength, Blank, AgreeTo, Fold;
    var k, keep := KeyLength(s), KeyAt(s).keep;
    SamePrefix(o, s, keep);
    var sign := KeyParts(s);
    if k <= i {
      KeyGap(s, i);
      GapIsNoLetter(s[i]);
    } else {
      KeyLetter(s, i);
      KeyGap(s, k);
      GapIsNoLetter(s[k]);
      assert o[i..][1] == s[i + 1];
    }
    assert o[i..][0] == s[i];
    NoKey(o[i..]);
  }

  /** A placeholder in front of a blank, or at the end, is the whole value. */
  lemma WholeValue(o: string, keep: nat, rest: string)
    requires keep <= |o| && o[keep..] == REDACTED + rest && (rest == "" || Blank(rest[0])) && Matched(KeyAt(o)) && KeyAt(o).keep == keep
    ensures KeyOk(o)
  {
    hide KeyAt, Span;
    KeyBeforeEnd(o);
    var value := o[keep..];
    assert forall i :: 0 <= i < |REDACTED| ==> value[i] == REDACTED[i] && !Blank(value[i]);
    assert rest != "" ==> value[|REDACTED|] == rest[0];
    SpanIs(value, false, |REDACTED|);
    assert o[keep..keep + |REDACTED|] == value[..|REDACTED|];
  }

  lemma ValueEnds(s: string)
    requires Matched(KeyAt(s))
    ensures var end := KeyAt(s).keep + KeyAt(s).drop; end <= |s| && (end < |s| ==> Blank(s[end]))
  {
    var keep := KeyAt(s).keep;
    assert Span(s[keep..], false) == KeyAt(s).drop;
    if keep + KeyAt(s).drop < |s| { assert s[keep + KeyAt(s).drop] == s[keep..][KeyAt(s).drop]; }
  }

  /** What follows a replaced value begins with a blank, redacted or not. */
  lemma RestIsBlank(s: string, end: nat)
    requires end <= |s| && (end < |s| ==> Blank(s[end]))
    ensures var rest := Redact(s[end..], KeyAt); rest == "" || Blank(rest[0])
  {
    if end < |s| { RedactFirst(s[end..], KeyAt); }
  }

  /** After the second redaction every keyed value is the placeholder. */
  lemma {:induction false} KeysAreRedacted(s: string)
    ensures KeysRedacted(Redact(s, KeyAt))
    decreases |s|
  {
    hide KeyAt, Redact, KeysRedacted, AgreeTo, Sized, Blank, KeyOk, Changed;
    BearerIsSized();
    if s == "" {
      NothingLeft(KeyAt);
      EmptyIsFree();
    } else if Matched(KeyAt(s)) {
      var keep, end := KeyAt(s).keep, KeyAt(s).keep + KeyAt(s).drop;
      RedactMatched(s, KeyAt);
      KeysAreRedacted(s[end..]);
      ValueEnds(s);
      RestIsBlank(s, end);
      var rest := Redact(s[end..], KeyAt);
      var o := s[..keep] + REDACTED + rest;
      Spliced(s, keep, rest);
      forall i | 0 <= i < keep ensures KeyOk(o[i..]) {
        if i == 0 {
          assert o[0..] == o;
          FirstKey(o, s, keep, rest);
        } else {
          KeyWord(s, o, i);
        }
      }
      KeysWhenSpliced(s, keep, rest);
    } else {
      KeysAreRedacted(s[1..]);
      RedactPassed(s, KeyAt);
      var p, j, q := FirstChange(s, KeyAt);
      var o := Redact(s, KeyAt);
      if Matched(KeyAt(o)) {
        KeyCarries(o, s, p);
        if KeyAt(o).keep < p { assert false; }
        KeyBeforeEnd(o);
        ChangedKey(o, s, p, j, q);
      } else {
        Unmatched(o);
      }
      KeysFromFirst(s[0], Redact(s[1..], KeyAt));
    }
  }

  lemma KeyBeforeEnd(o: string)
    requires Matched(KeyAt(o))
    ensures KeyAt(o).keep < |o| && KeyAt(o).keep + KeyAt(o).drop <= |o| && KeyAt(o).drop == Span(o[KeyAt(o).keep..], false)
  {
  }

  lemma Unmatched(o: string)
    requires !Matched(KeyAt(o))
    ensures KeyOk(o)
  {
  }

  lemma FirstKey(o: string, s: string, keep: nat, rest: string)
    requires Matched(KeyAt(s)) && keep == KeyAt(s).keep && AgreeTo(o, s, keep)
    requires keep <= |o| && o[keep..] == REDACTED + rest && (rest == "" || Blank(rest[0]))
    ensures KeyOk(o)
  {
    if Matched(KeyAt(o)) {
      KeyCarries(o, s, keep);
      WholeValue(o, keep, rest);
    }
  }

  lemma ChangedKey(o: string, s: string, p: nat, j: nat, q: nat)
    requires o == Redact(s, KeyAt) && Matched(KeyAt(o)) && KeyAt(o).keep == p < |o| && Changed(s, KeyAt, p, j, q)
    ensures KeyOk(o)
  {
    hide Redact, KeyAt, Blank, KeyOk;
    ValueEnds(s[j..]);
    if q < |s| { assert s[q] == s[j..][q - j]; }
    RestIsBlank(s, q);
    WholeValue(o, p, Redact(s[q..], KeyAt));
  }

  /* ----- stored messages ----- */

  /** A word of the list begins at `i`, whatever its case. */
  predicate WordAt(s: string, i: nat, word: string) {
    i + |word| <= |s| && forall k :: 0 <= k < |word| ==> Fold(s[i + k]) == word[k]
  }

  predicate BlanksFrom(s: string, i: nat, j: nat) {
    i <= j <= |s| && forall k :: i <= k < j ==> Blank(s[k])
  }

  lemma KeyedWord(s: string, i: nat, word: string)
    requires WordAt(s, i, word) && word in ["token", "password", "secret", "clave"]
    ensures KeyLength(s[i..]) == |word|
  {
    assert forall k :: 0 <= k < |word| ==> s[i..][k] == s[i + k];
    assert Starts(s[i..], word);
    OneKey(s[i..]);
  }

  lemma BlanksSpan(s: string, i: nat, from: nat, to: nat)
    requires i <= from && BlanksFrom(s, from, to) && to < |s| && !Blank(s[to])
    ensures Span(s[i..][from - i..], true) == to - from
  {
    assert s[i..][from - i..] == s[from..];
    SpanIs(s[from..], true, to - from);
  }

  lemma KeyedMatch(s: string, i: nat, word: string, sign: nat, v: nat)
    requires WordAt(s, i, word) && word in ["token", "password", "secret", "clave"]
    requires BlanksFrom(s, i + |word|, sign) && sign < v < |s| && (s[sign] == ':' || s[sign] == '=')
    requires BlanksFrom(s, sign + 1, v) && !Blank(s[v])
    ensures i <= v && Matched(KeyAt(s[i..])) && KeyAt(s[i..]).keep == v - i
  {
    hide KeyAt, KeyLength, Span, Blank, Fold, WordAt, Starts;
    KeyedWord(s, i, word);
    WordIsShort(s, i, word);
    SignIsNoBlank(s[sign]);
    BlanksSpan(s, i, i + |word|, sign);
    BlanksSpan(s, i, sign + 1, v);
    assert s[i..][sign - i] == s[sign] && s[i..][v - i] == s[v];
    PartsMatch(s[i..], sign - i, v - i);
  }

  /** A key, a sign and a value at `v`: the value is the placeholder, up to the next blank or the end. */
  lemma KeyedValueIsHidden(s: string, i: nat, word: string, sign: nat, v: nat)
    requires KeysRedacted(s) && WordAt(s, i, word) && word in ["token", "password", "secret", "clave"]
    requires BlanksFrom(s, i + |word|, sign) && sign < v < |s| && (s[sign] == ':' || s[sign] == '=')
    requires BlanksFrom(s, sign + 1, v) && !Blank(s[v])
    ensures REDACTED <= s[v..] && (v + |REDACTED| < |s| ==> Blank(s[v + |REDACTED|]))
  {
    hide KeyAt, Blank, WordAt, KeysRedacted, BlanksFrom;
    KeyedMatch(s, i, word, sign, v);
    KeyIsOk(s, i);
    ValueEnds(s[i..]);
    var drop := KeyAt(s[i..]).drop;
    assert s[i..][v - i..v - i + drop] == s[v..][..drop];
    assert |s[v..][..drop]| == drop;
    if v + drop < |s| { assert s[i..][v - i + drop] == s[v + drop]; }
  }

  lemma WordIsShort(s: string, i: nat, word: string)
    requires WordAt(s, i, word)
    ensures i + |word| <= |s|
  {
  }

  lemma KeyIsOk(s: string, i: nat)
    requires KeysRedacted(s) && i < |s| && Matched(KeyAt(s[i..]))
    ensures var m := KeyAt(s[i..]); m.keep + m.drop <= |s[i..]| && s[i..][m.keep..m.keep + m.drop] == REDACTED
  {
    hide KeyAt;
    assert KeyOk(s[i..]);
    KeyBeforeEnd(s[i..]);
  }

  lemma SignIsNoBlank(c: char)
    requires c == ':' || c == '='
    ensures !Blank(c)
  {
  }

  /** A bearer word with something behind it at `v`: no character a token may have. */
  lemma BearerIsHidden(s: string, i: nat, v: nat)
    requires BearerFree(s) && WordAt(s, i, "bearer") && i + 6 < v < |s| && BlanksFrom(s, i + 6, v) && !Blank(s[v])
    ensures !('a' <= Fold(s[v]) <= 'z' || '0' <= s[v] <= '9' || s[v] in "._~+/=-")
  {
    FreeAt(s, i);
    assert forall k :: 0 <= k < 6 ==> s[i..][k] == s[i + k];
    BlanksSpan(s, i, i + 6, v);
    assert s[i..][v - i..][0] == s[v];
    hide Span, Blank, Fold;
  }

  /**
   * No credential-shaped value is stored: in a stored message no token stands behind a bearer word, and every value behind
   * `token`, `password`, `secret` or `clave` with a colon or an equals sign is the placeholder and nothing more.
   */
  lemma {:induction false} NothingLeaks(message: string)
    ensures var s := SafeMessage(message);
            && (forall i: nat, v: nat :: i + 6 < v < |s| && WordAt(s, i, "bearer") && BlanksFrom(s, i + 6, v) && !Blank(s[v]) ==>
                  !('a' <= Fold(s[v]) <= 'z' || '0' <= s[v] <= '9' || s[v] in "._~+/=-"))
            && forall i: nat, word, sign: nat, v: nat ::
                 (&& word in ["token", "password", "secret", "clave"] && WordAt(s, i, word) && BlanksFrom(s, i + |word|, sign)
                  && sign < v < |s| && (s[sign] == ':' || s[sign] == '=') && BlanksFrom(s, sign + 1, v) && !Blank(s[v])) ==>
                   REDACTED <= s[v..] && (v + |REDACTED| < |s| ==> Blank(s[v + |REDACTED|]))
  {
    hide BearerFree, KeysRedacted, Redact, Squeeze, Blank, Fold, WordAt, BlanksFrom;
    var cut := Cut(Squeeze(message, "", false));
    BearersAreRedacted(cut);
    KeysKeepBearersOut(Redact(cut, BearerAt));
    KeysAreRedacted(Redact(cut, BearerAt));
    var s := SafeMessage(message);
    forall i: nat, v: nat | i + 6 < v < |s| && WordAt(s, i, "bearer") && BlanksFrom(s, i + 6, v) && !Blank(s[v])
      ensures !('a' <= Fold(s[v]) <= 'z' || '0' <= s[v] <= '9' || s[v] in "._~+/=-")
    {
      BearerIsHidden(s, i, v);
    }
    forall i: nat, word, sign: nat, v: nat |
      (&& word in ["token", "password", "secret", "clave"] && WordAt(s, i, word) && BlanksFrom(s, i + |word|, sign)
       && sign < v < |s| && (s[sign] == ':' || s[sign] == '=') && BlanksFrom(s, sign + 1, v) && !Blank(s[v]))
      ensures REDACTED <= s[v..] && (v + |REDACTED| < |s| ==> Blank(s[v + |REDACTED|]))
    {
      KeyedValueIsHidden(s, i, word, sign, v);
    }
  }
}
