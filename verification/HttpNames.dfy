/** The names of headers: which of them the parser recognises, in which spelling. */
module HttpNames {
  import opened Bytes
  import opened Options
  import opened HttpSyntax
  import opened HttpFold

  /** A byte is this lower-case character, or the capital of this letter. */
  predicate IsLetter(b: Byte, c: char)
  {
    var x := c as int;
    b == x || (97 <= x <= 122 && b as int + 32 == x)
  }

  /** A word in any letter case. */
  predicate Spells(s: seq<Byte>, word: string)
  {
    |s| == |word| && forall i :: 0 <= i < |s| ==> IsLetter(s[i], word[i])
  }

  predicate IsToken(s: seq<Byte>)
  {
    s != [] && forall i :: 0 <= i < |s| ==> StrictToken(s[i]) != 0
  }

  lemma DashIsToken()
    ensures StrictToken(45) == 45
  {
    assert "!#$%&'*+-.^_`|~"[8] == '-';
  }

  lemma TokenIs(ch: Byte, c: char)
    requires 97 <= c as int <= 122 || c as int == 45
    ensures StrictToken(ch) == c as int <==> IsLetter(ch, c)
  {
    DashIsToken();
    hide OneOf;
    assert Code('a') == 97 && Code('z') == 122 && Code('A') == 65 && Code('Z') == 90;
    assert Code('0') == 48 && Code('9') == 57;
  }

  lemma TokenByte(ch: Byte)
    requires StrictToken(ch) != 0
    ensures Token(ch) == StrictToken(ch) && ch >= 33 && ch != Code(':')
  {
    hide OneOf;
    if OneOf(ch, "!#$%&'*+-.^_`|~") {
      SpecialToken(ch);
    }
  }

  lemma SpecialToken(ch: Byte)
    requires OneOf(ch, "!#$%&'*+-.^_`|~")
    ensures ch >= 33 && ch != Code(':')
  {
  }

  /** The word a state is in the middle of. */
  function WordOf(h: HeaderState): (w: string)
  {
    match h
    case MatchingConnection => "connection"
    case MatchingProxyConnection => "proxy-connection"
    case MatchingContentLength => "content-length"
    case MatchingTransferEncoding => "transfer-encoding"
    case MatchingUpgrade => "upgrade"
    case _ => ""
  }

  function DoneOf(h: HeaderState): HeaderState
  {
    match h
    case MatchingContentLength => ContentLength
    case MatchingTransferEncoding => TransferEncoding
    case MatchingUpgrade => Upgrade
    case _ => Connection
  }

  predicate Matching(h: HeaderState)
  {
    h.MatchingConnection? || h.MatchingProxyConnection? || h.MatchingContentLength? || h.MatchingTransferEncoding? || h.MatchingUpgrade?
  }

  /** A name starts as this word does. */
  predicate Starts(name: seq<Byte>, word: string)
  {
    |name| <= |word| && forall i :: 0 <= i < |name| ==> IsLetter(name[i], word[i])
  }

  predicate NoWord(name: seq<Byte>)
  {
    && !Starts(name, "connection") && !Starts(name, "proxy-connection") && !Starts(name, "content-length")
    && !Starts(name, "transfer-encoding") && !Starts(name, "upgrade")
  }

  /** What the state tells of the name read so far. */
  predicate Reading(name: seq<Byte>, h: HeaderState, index: nat)
  {
    match h
    case General => NoWord(name)
    case C => |name| == 1 && Starts(name, "con") && index == 0
    case CO => |name| == 2 && Starts(name, "con") && index == 1
    case CON => |name| == 3 && Starts(name, "con") && index == 2
    case Connection => Spells(name, "connection") || Spells(name, "proxy-connection")
    case ContentLength => Spells(name, "content-length")
    case TransferEncoding => Spells(name, "transfer-encoding")
    case Upgrade => Spells(name, "upgrade")
    case _ =>
      && Matching(h) && 0 < |name| < |WordOf(h)| && Starts(name, WordOf(h)) && index == |name| - 1
      && (h.MatchingConnection? || h.MatchingContentLength? ==> |name| >= 4)
  }

  lemma {:induction false} StartsNext(name: seq<Byte>, ch: Byte, word: string)
    ensures Starts(name + [ch], word) <==> Starts(name, word) && |name| < |word| && IsLetter(ch, word[|name|])
  {
    var t := name + [ch];
    if Starts(t, word) {
      assert forall i :: 0 <= i < |name| ==> t[i] == name[i];
      assert t[|name|] == ch;
    }
  }

  /** Different words differ early. */
  lemma {:induction false} OneWord(name: seq<Byte>, h: HeaderState)
    requires Matching(h) && Starts(name, WordOf(h)) && |name| > 0
    requires h.MatchingConnection? || h.MatchingContentLength? ==> |name| >= 4
    ensures !h.MatchingConnection? ==> !Starts(name, "connection") || (h.MatchingContentLength? && |name| < 4)
    ensures !h.MatchingProxyConnection? ==> !Starts(name, "proxy-connection")
    ensures !h.MatchingContentLength? ==> !Starts(name, "content-length") || (h.MatchingConnection? && |name| < 4)
    ensures !h.MatchingTransferEncoding? ==> !Starts(name, "transfer-encoding")
    ensures !h.MatchingUpgrade? ==> !Starts(name, "upgrade")
  {
    assert IsLetter(name[0], WordOf(h)[0]);
    if |name| >= 4 {
      assert IsLetter(name[3], WordOf(h)[3]);
    }
  }

  /** One more character of a word. */
  lemma {:induction false} MatchedReads(p: Parser, name: seq<Byte>, ch: Byte, h: HeaderState)
    requires Matching(h) && p.headerState == h && Reading(name, h, p.index) && StrictToken(ch) != 0
    ensures var q := Matched(p, StrictToken(ch), WordOf(h), General, DoneOf(h));
            q == p.(headerState := q.headerState, index := q.index) && Reading(name + [ch], q.headerState, q.index)
  {
    hide StrictToken, Spells, NoWord, Starts, WordOf, Reading;
    ReadingWord(name, h, p.index);
    var k, w := |name|, WordOf(h);
    LetterOf(h, k);
    TokenIs(ch, w[k]);
    StartsNext(name, ch, w);
    if IsLetter(ch, w[k]) {
      if k == |w| - 1 {
        ReadWhole(name + [ch], h);
      } else {
        ReadOn(name + [ch], h);
      }
    } else {
      OtherWord(name, ch, h);
    }
  }

  lemma ReadingWord(name: seq<Byte>, h: HeaderState, index: nat)
    requires Matching(h) && Reading(name, h, index)
    ensures 0 < |name| < |WordOf(h)| && Starts(name, WordOf(h)) && index == |name| - 1
    ensures h.MatchingConnection? || h.MatchingContentLength? ==> |name| >= 4
  {
  }

  lemma ReadOn(name: seq<Byte>, h: HeaderState)
    requires Matching(h) && 0 < |name| < |WordOf(h)| && Starts(name, WordOf(h))
    requires h.MatchingConnection? || h.MatchingContentLength? ==> |name| >= 4
    ensures Reading(name, h, |name| - 1)
  {
    hide Starts;
  }

  lemma ReadWhole(name: seq<Byte>, h: HeaderState)
    requires Matching(h) && |name| == |WordOf(h)| && Starts(name, WordOf(h))
    ensures forall index :: Reading(name, DoneOf(h), index)
  {
    hide Starts, Spells;
    StartsWhole(name, WordOf(h));
  }

  lemma {:induction false} OtherWord(name: seq<Byte>, ch: Byte, h: HeaderState)
    requires Matching(h) && 0 < |name| < |WordOf(h)| && Starts(name, WordOf(h)) && !IsLetter(ch, WordOf(h)[|name|])
    requires h.MatchingConnection? || h.MatchingContentLength? ==> |name| >= 4
    ensures forall index :: Reading(name + [ch], General, index)
  {
    hide Starts;
    OneWord(name, h);
    StartsNext(name, ch, "connection");
    StartsNext(name, ch, "proxy-connection");
    StartsNext(name, ch, "content-length");
    StartsNext(name, ch, "transfer-encoding");
    StartsNext(name, ch, "upgrade");
  }

  lemma LetterOf(h: HeaderState, k: nat)
    requires Matching(h) && k < |WordOf(h)|
    ensures var c := WordOf(h)[k]; (97 <= c as int <= 122 || c as int == 45) && CharAt(WordOf(h), k) == c as int
  {
  }

  lemma StartsWhole(name: seq<Byte>, w: string)
    requires Starts(name, w) && |name| == |w|
    ensures Spells(name, w)
  {
  }

  // ----- the first letters

  /** The beginning of a name. */
  lemma {:induction false} FirstReads(p: Parser, ch: Byte)
    requires StrictToken(ch) != 0
    ensures var e := FieldFirst(p, ch);
            && e == To(p.(index := 0, headerState := e.p.headerState), Field).(mark := Some(HeaderField))
            && Reading([ch], e.p.headerState, 0)
  {
    hide StrictToken, Token;
    TokenByte(ch);
    TokenIs(ch, 'c');
    TokenIs(ch, 'p');
    TokenIs(ch, 't');
    TokenIs(ch, 'u');
    FirstLetters(ch);
  }

  lemma FirstLetters(ch: Byte)
    ensures Starts([ch], "con") <==> IsLetter(ch, 'c')
    ensures Starts([ch], "connection") <==> IsLetter(ch, 'c')
    ensures Starts([ch], "content-length") <==> IsLetter(ch, 'c')
    ensures Starts([ch], "proxy-connection") <==> IsLetter(ch, 'p')
    ensures Starts([ch], "transfer-encoding") <==> IsLetter(ch, 't')
    ensures Starts([ch], "upgrade") <==> IsLetter(ch, 'u')
  {
  }

  /** What the two words beginning with "con" have in common. */
  lemma {:induction false} ConStarts(name: seq<Byte>)
    requires |name| <= 3
    ensures Starts(name, "connection") <==> Starts(name, "con")
    ensures Starts(name, "content-length") <==> Starts(name, "con")
    ensures |name| > 0 && Starts(name, "con") ==>
              !Starts(name, "proxy-connection") && !Starts(name, "transfer-encoding") && !Starts(name, "upgrade")
  {
    var a, b, c := "con", "connection", "content-length";
    assert a[0] == b[0] == c[0] && a[1] == b[1] == c[1] && a[2] == b[2] == c[2];
    assert forall i :: 0 <= i < |name| ==> a[i] == b[i] == c[i];
  }

  lemma {:induction false} PrefixReads(p: Parser, name: seq<Byte>, ch: Byte)
    requires p.headerState.C? || p.headerState.CO?
    requires Reading(name, p.headerState, p.index) && StrictToken(ch) != 0
    ensures var q := FieldChar(p, ch, StrictToken(ch));
            q == p.(headerState := q.headerState, index := q.index) && Reading(name + [ch], q.headerState, q.index)
  {
    hide StrictToken, Starts;
    TokenIs(ch, 'o');
    TokenIs(ch, 'n');
    StartsNext(name, ch, "con");
    ConStarts(name);
    ConStarts(name + [ch]);
    StartsNext(name, ch, "proxy-connection");
    StartsNext(name, ch, "transfer-encoding");
    StartsNext(name, ch, "upgrade");
  }

  lemma {:induction false} ConReads(p: Parser, name: seq<Byte>, ch: Byte)
    requires p.headerState.CON? && Reading(name, p.headerState, p.index) && StrictToken(ch) != 0
    ensures var q := FieldChar(p, ch, StrictToken(ch));
            q == p.(headerState := q.headerState, index := q.index) && Reading(name + [ch], q.headerState, q.index)
  {
    hide StrictToken, Starts;
    TokenIs(ch, 'n');
    TokenIs(ch, 't');
    ConStarts(name);
    StartsNext(name, ch, "connection");
    StartsNext(name, ch, "content-length");
    StartsNext(name, ch, "proxy-connection");
    StartsNext(name, ch, "transfer-encoding");
    StartsNext(name, ch, "upgrade");
  }

  /** A whole word with something behind it is no word. */
  lemma {:induction false} BeyondWord(name: seq<Byte>, ch: Byte, h: HeaderState)
    requires Matching(h) && Spells(name, WordOf(h))
    ensures NoWord(name + [ch])
  {
    hide Starts;
    WholeStarts(name, WordOf(h));
    OneWord(name, h);
    StartsNext(name, ch, "connection");
    StartsNext(name, ch, "proxy-connection");
    StartsNext(name, ch, "content-length");
    StartsNext(name, ch, "transfer-encoding");
    StartsNext(name, ch, "upgrade");
  }

  lemma WholeStarts(name: seq<Byte>, w: string)
    requires Spells(name, w)
    ensures Starts(name, w)
  {
  }

  lemma {:induction false} DoneReads(p: Parser, name: seq<Byte>, ch: Byte)
    requires p.headerState.Connection? || p.headerState.ContentLength? || p.headerState.TransferEncoding? || p.headerState.Upgrade?
    requires Reading(name, p.headerState, p.index) && ch != SP
    ensures var q := FieldChar(p, ch, StrictToken(ch));
            q == p.(headerState := General) && Reading(name + [ch], General, q.index)
  {
    hide StrictToken, Spells, NoWord;
    match p.headerState
    case Connection =>
      if Spells(name, "connection") {
        BeyondWord(name, ch, MatchingConnection);
      } else {
        BeyondWord(name, ch, MatchingProxyConnection);
      }
    case ContentLength => BeyondWord(name, ch, MatchingContentLength);
    case TransferEncoding => BeyondWord(name, ch, MatchingTransferEncoding);
    case Upgrade => BeyondWord(name, ch, MatchingUpgrade);
  }

  lemma {:induction false} GeneralReads(p: Parser, name: seq<Byte>, ch: Byte)
    requires p.headerState.General? && Reading(name, General, p.index)
    ensures FieldChar(p, ch, StrictToken(ch)) == p && Reading(name + [ch], General, p.index)
  {
    hide StrictToken, Starts;
    StartsNext(name, ch, "connection");
    StartsNext(name, ch, "proxy-connection");
    StartsNext(name, ch, "content-length");
    StartsNext(name, ch, "transfer-encoding");
    StartsNext(name, ch, "upgrade");
  }

  /** One more character of a name. */
  lemma {:induction false} NameReads(p: Parser, name: seq<Byte>, ch: Byte)
    requires Reading(name, p.headerState, p.index) && StrictToken(ch) != 0
    ensures var q := FieldChar(p, ch, Token(ch));
            q == p.(headerState := q.headerState, index := q.index) && Reading(name + [ch], q.headerState, q.index)
  {
    hide StrictToken, Token, Spells, NoWord, Starts, Reading;
    TokenByte(ch);
    KnownState(name, p.headerState, p.index);
    var h := p.headerState;
    if Matching(h) {
      MatchedReads(p, name, ch, h);
    } else if h.C? || h.CO? {
      PrefixReads(p, name, ch);
    } else if h.CON? {
      ConReads(p, name, ch);
    } else if h.General? {
      GeneralReads(p, name, ch);
    } else {
      DoneReads(p, name, ch);
    }
  }

  lemma KnownState(name: seq<Byte>, h: HeaderState, index: nat)
    requires Reading(name, h, index)
    ensures Matching(h) || h.C? || h.CO? || h.CON? || h.General? || h.Connection? || h.ContentLength? || h.TransferEncoding? || h.Upgrade?
  {
    hide Spells, Starts;
  }

  /** At the end of a name the state tells which header it is, in any letter case. */
  lemma {:induction false} NameTells(name: seq<Byte>, h: HeaderState, index: nat)
    requires Reading(name, h, index)
    ensures h.Connection? <==> Spells(name, "connection") || Spells(name, "proxy-connection")
    ensures h.ContentLength? <==> Spells(name, "content-length")
    ensures h.TransferEncoding? <==> Spells(name, "transfer-encoding")
    ensures h.Upgrade? <==> Spells(name, "upgrade")
  {
    hide Starts, Spells;
    WordsApart(name);
    if Spells(name, "connection") { Told(name, h, index, MatchingConnection); }
    if Spells(name, "proxy-connection") { Told(name, h, index, MatchingProxyConnection); }
    if Spells(name, "content-length") { Told(name, h, index, MatchingContentLength); }
    if Spells(name, "transfer-encoding") { Told(name, h, index, MatchingTransferEncoding); }
    if Spells(name, "upgrade") { Told(name, h, index, MatchingUpgrade); }
  }

  lemma WordsApart(name: seq<Byte>)
    ensures Spells(name, "connection") ==> |name| == 10
    ensures Spells(name, "proxy-connection") ==> |name| == 16
    ensures Spells(name, "content-length") ==> |name| == 14
    ensures Spells(name, "transfer-encoding") ==> |name| == 17
    ensures Spells(name, "upgrade") ==> |name| == 7
  {
  }

  lemma {:induction false} Told(name: seq<Byte>, h: HeaderState, index: nat, w: HeaderState)
    requires Reading(name, h, index) && Matching(w) && Spells(name, WordOf(w))
    ensures h == DoneOf(w)
  {
    hide Starts, Spells;
    WordsApart(name);
    WholeStarts(name, WordOf(w));
    if Matching(h) {
      OneWord(name, h);
    }
  }
}
