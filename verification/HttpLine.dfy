/** The first line of a request: method, target and version (RFC 7230, section 3.1.1). */
module HttpLine {
  import opened Bytes
  import opened Options
  import opened HttpSyntax
  import opened HttpFold
  import opened HttpSim
  import opened HttpBody
  import opened HttpHeaders
  import opened HttpMethods

  // ----- the method

  function Codes(s: string): (b: seq<Byte>)
    ensures |b| == |s|
  {
    seq(|s|, i requires 0 <= i < |s| => Code(s[i]))
  }

  lemma FirstIsAlpha(ch: Byte)
    requires FirstMethod(ch).Some?
    ensures IsAlpha(ch) && ch != CR && ch != LF
  {
  }

  lemma OtherIsCapital(v: Method, j: nat, ch: Byte)
    requires OtherMethod(v, j, ch).Some?
    ensures IsUpper(ch) || ch == Code('-') || ch == Code('_')
  {
  }

  /** The fields in the middle of a method. */
  function InMethod(p: Parser, m: Method, k: nat): Parser
    requires 0 < k <= |MethodString(m)| && Assumed(m, k).Some?
  {
    p.(state := ReqMethod, flags := {}, contentLength := ULLONG_MAX, verb := Assumed(m, k).value, index := k)
  }

  lemma StartTurn(p: Parser, b: Byte)
    requires p.state.StartReq? || p.state.ReqMethod?
    ensures Turn(p, b) == LineTurn(p, b)
  {
    hide LineTurn, HeaderTurn, ChunkTurn;
  }

  lemma {:induction false} FirstLetterTurn(p: Parser, m: Method)
    requires p.state.StartReq? && 0 < |MethodString(m)|
    ensures Assumed(m, 1).Some?
    ensures Turn(p, Code(MethodString(m)[0])) == Go(InMethod(p, m, 1)).(notice := Some(MessageBegin))
  {
    hide MethodString, OtherMethod, FirstMethod, IsAlpha, IsUpper, Turn;
    var ch := Code(MethodString(m)[0]);
    AlwaysAssumed(m, 1);
    FirstIsAlpha(ch);
    StartTurn(p, ch);
  }

  lemma {:induction false} LetterTurn(p: Parser, m: Method, k: nat)
    requires p.state.StartReq? && 0 < k < |MethodString(m)|
    ensures Assumed(m, k + 1).Some? && Assumed(m, k).Some?
    ensures Turn(InMethod(p, m, k), Code(MethodString(m)[k])) == Go(InMethod(p, m, k + 1))
  {
    hide MethodString, OtherMethod, FirstMethod, IsAlpha, IsUpper, Turn;
    var ch := Code(MethodString(m)[k]);
    AlwaysAssumed(m, k + 1);
    AlwaysAssumed(m, k);
    NoBlanks(m);
    var v := Assumed(m, k).value;
    if CharAt(MethodString(v), k) != ch {
      OtherIsCapital(v, k, ch);
    }
    StartTurn(InMethod(p, m, k), ch);
  }

  lemma {:induction false} FirstLetter(r: Run, m: Method)
    requires !Halted(r) && r.p.state.StartReq? && 1 <= |MethodString(m)|
    ensures Assumed(m, 1).Some?
    ensures Step(r, Code(MethodString(m)[0])) == Run(InMethod(r.p, m, 1), r.log + [Notify(MessageBegin)], r.consumed + 1, false)
  {
    hide MethodString, Assumed, Step, Turn, Append;
    FirstLetterTurn(r.p, m);
    StepIs(r, Code(MethodString(m)[0]));
  }

  lemma {:induction false} NextLetter(t: Run, p: Parser, m: Method, k: nat)
    requires !Halted(t) && p.state.StartReq? && 0 < k < |MethodString(m)| && Assumed(m, k).Some? && t.p == InMethod(p, m, k)
    ensures Assumed(m, k + 1).Some?
    ensures Step(t, Code(MethodString(m)[k])) == t.(p := InMethod(p, m, k + 1), consumed := t.consumed + 1)
  {
    hide MethodString, Assumed, Step, Turn, Append;
    LetterTurn(p, m, k);
    StepIs(t, Code(MethodString(m)[k]));
  }

  /** The letters of a method. */
  lemma {:induction false} LettersRead(r: Run, m: Method, k: nat)
    requires !Halted(r) && r.p.state.StartReq? && 0 < k <= |MethodString(m)|
    ensures Assumed(m, k).Some?
    ensures Fold(r, Codes(MethodString(m)[..k])) == Run(InMethod(r.p, m, k), r.log + [Notify(MessageBegin)], r.consumed + k, false)
  {
    hide MethodString, Assumed, Step, Fold;
    var name := MethodString(m);
    var init, ch := Codes(name[..k - 1]), Code(name[k - 1]);
    assert Codes(name[..k]) == init + [ch];
    FoldSnoc(r, init, ch);
    if k == 1 {
      assert init == [];
      NothingRead(r);
      FirstLetter(r, m);
    } else {
      LettersRead(r, m, k - 1);
      NextLetter(Fold(r, init), r.p, m, k - 1);
    }
  }

  lemma {:induction false} MethodRead(r: Run, m: Method)
    requires !Halted(r) && r.p.state.StartReq?
    ensures var bytes := Codes(MethodString(m)) + [SP];
            var t := Fold(r, bytes);
            t == Run(r.p.(state := SpacesBeforeUrl, flags := {}, contentLength := ULLONG_MAX, verb := m, index := t.p.index),
                     r.log + [Notify(MessageBegin)], r.consumed + |bytes|, false)
  {
    hide MethodString, Assumed, Step, Turn, Append, InMethod;
    var n := |MethodString(m)|;
    ShortNames(m);
    NameIsMethod(m);
    LettersRead(r, m, n);
    assert MethodString(m)[..n] == MethodString(m);
    var t := Fold(r, Codes(MethodString(m)));
    MethodIsRead(r.p, m);
    SpaceTurn(t.p, m);
    StepIs(t, SP);
    FoldSnoc(r, Codes(MethodString(m)), SP);
  }

  lemma MethodIsRead(p: Parser, m: Method)
    requires 0 < |MethodString(m)| && Assumed(m, |MethodString(m)|) == Some(m)
    ensures InMethod(p, m, |MethodString(m)|)
            == p.(state := ReqMethod, flags := {}, contentLength := ULLONG_MAX, verb := m, index := |MethodString(m)|)
  {
    hide MethodString, Assumed;
  }

  lemma SpaceTurn(p: Parser, m: Method)
    requires p.state.ReqMethod? && p.verb == m && p.index == |MethodString(m)|
    ensures Turn(p, SP) == Go(p.(index := p.index + 1, state := SpacesBeforeUrl))
  {
    hide MethodString, OtherMethod, Turn;
    StartTurn(p, SP);
  }

  // ----- the target

  predicate IsLetterByte(b: Byte) { 65 <= b <= 90 || 97 <= b <= 122 }

  /** Bytes that may follow in a path, a query or a fragment: visible ones, and by leniency some others. */
  predicate IsUrlByte(b: Byte) { b == 9 || b == 12 || 33 <= b <= 126 || b >= 128 }

  predicate IsHostByte(b: Byte) { IsLetterByte(b) || 48 <= b <= 57 || OneOf(b, "-_.!~*'()%;:&=+$,") || b == 0x5B || b == 0x5D }

  /** What a request is for: a path, or a scheme, a host and perhaps a path. */
  datatype Target = OriginForm(path: seq<Byte>) | AbsoluteForm(scheme: seq<Byte>, host: seq<Byte>, path: seq<Byte>)

  function TargetBytes(t: Target): seq<Byte>
  {
    match t
    case OriginForm(path) => path
    case AbsoluteForm(scheme, host, path) => scheme + Codes("://") + host + path
  }

  predicate GoodPath(path: seq<Byte>)
  {
    path != [] && (path[0] == 0x2F || path[0] == 0x2A) && forall i :: 1 <= i < |path| ==> IsUrlByte(path[i])
  }

  predicate GoodTarget(t: Target)
  {
    match t
    case OriginForm(path) => GoodPath(path)
    case AbsoluteForm(scheme, host, path) =>
      && scheme != [] && (forall i :: 0 <= i < |scheme| ==> IsLetterByte(scheme[i]))
      && host != [] && (forall i :: 0 <= i < |host| ==> IsHostByte(host[i]))
      && (path == [] || (path[0] == 0x2F && GoodPath(path)))
  }

  /** The state after some bytes of a target. */
  function UrlStates(s: State, u: seq<Byte>): State
  {
    if u == [] then s else ParseUrlChar(UrlStates(s, u[..|u| - 1]), u[|u| - 1])
  }

  lemma {:induction false} UrlStatesConcat(s: State, u: seq<Byte>, v: seq<Byte>)
    ensures UrlStates(s, u + v) == UrlStates(UrlStates(s, u), v)
  {
    hide ParseUrlChar;
    if v == [] {
      assert u + v == u;
    } else {
      UrlStatesConcat(s, u, v[..|v| - 1]);
      assert (u + v)[..|u + v| - 1] == u + v[..|v| - 1];
    }
  }

  /** Past the point where a path has begun. */
  predicate InTail(s: State)
  {
    s.Path? || s.QueryStart? || s.Query? || s.FragmentStart? || s.Fragment?
  }

  lemma TailByte(s: State, b: Byte)
    requires InTail(s) && IsUrlByte(b)
    ensures InTail(ParseUrlChar(s, b))
  {
  }

  lemma {:induction false} TailStates(s: State, u: seq<Byte>)
    requires InTail(s) && forall i :: 0 <= i < |u| ==> IsUrlByte(u[i])
    ensures InTail(UrlStates(s, u))
  {
    hide ParseUrlChar, IsUrlByte;
    if u != [] {
      TailStates(s, u[..|u| - 1]);
      TailByte(UrlStates(s, u[..|u| - 1]), u[|u| - 1]);
    }
  }

  lemma LetterInScheme(b: Byte)
    requires IsLetterByte(b)
    ensures ParseUrlChar(Schema, b) == Schema == ParseUrlChar(SpacesBeforeUrl, b)
  {
  }

  lemma SchemeEnd()
    ensures ParseUrlChar(Schema, 58) == SchemaSlash && ParseUrlChar(SchemaSlash, 47) == SchemaSlashSlash
    ensures ParseUrlChar(SchemaSlashSlash, 47) == ServerStart
  {
  }

  lemma HostByteStays(s: State, b: Byte)
    requires (s.ServerStart? || s.Server?) && IsHostByte(b)
    ensures ParseUrlChar(s, b) == Server
  {
    hide OneOf;
    SplitHostByte(b);
  }

  lemma SplitHostByte(b: Byte)
    ensures OneOf(b, "-_.!~*'()%;:&=+$,") ==> b > 32 && b != Code('/') && b != Code('?') && b != Code('@')
  {
  }

  lemma {:induction false} SchemeStates(u: seq<Byte>)
    requires u != [] && forall i :: 0 <= i < |u| ==> IsLetterByte(u[i])
    ensures UrlStates(SpacesBeforeUrl, u) == Schema
  {
    hide ParseUrlChar, IsLetterByte;
    var k := |u| - 1;
    LetterInScheme(u[k]);
    if k > 0 {
      SchemeStates(u[..k]);
    } else {
      assert u[..0] == [];
    }
  }

  lemma {:induction false} HostStates(u: seq<Byte>)
    requires u != [] && forall i :: 0 <= i < |u| ==> IsHostByte(u[i])
    ensures UrlStates(ServerStart, u) == Server
  {
    hide ParseUrlChar, IsHostByte;
    var k := |u| - 1;
    if k > 0 {
      HostStates(u[..k]);
      HostByteStays(Server, u[k]);
    } else {
      assert u[..0] == [];
      HostByteStays(ServerStart, u[0]);
    }
  }

  lemma PathBegins(b: Byte)
    ensures b == 0x2F || b == 0x2A ==> ParseUrlChar(SpacesBeforeUrl, b) == Path
    ensures b == 0x2F ==> ParseUrlChar(Server, b) == Path
  {
  }

  lemma {:induction false} PathStates(s: State, path: seq<Byte>)
    requires GoodPath(path) && (s.SpacesBeforeUrl? || (s.Server? && path[0] == 0x2F))
    ensures InTail(UrlStates(s, path))
  {
    hide ParseUrlChar, IsUrlByte;
    assert path == [path[0]] + path[1..];
    UrlStatesConcat(s, [path[0]], path[1..]);
    assert [path[0]][..0] == [];
    PathBegins(path[0]);
    TailStates(Path, path[1..]);
  }

  /** A good target ends where the URL may end. */
  lemma {:induction false} TargetStates(t: Target)
    requires GoodTarget(t)
    ensures var s := UrlStates(SpacesBeforeUrl, TargetBytes(t)); InTail(s) || s == Server
  {
    hide ParseUrlChar, GoodPath, IsLetterByte, IsHostByte, UrlStates;
    match t
    case OriginForm(path) => PathStates(SpacesBeforeUrl, path);
    case AbsoluteForm(scheme, host, path) =>
      SchemeStates(scheme);
      UrlStatesConcat(SpacesBeforeUrl, scheme, Codes("://"));
      SlashStates();
      UrlStatesConcat(SpacesBeforeUrl, scheme + Codes("://"), host);
      HostStates(host);
      UrlStatesConcat(SpacesBeforeUrl, scheme + Codes("://") + host, path);
      if path == [] {
        NoMoreStates(Server);
      } else {
        PathStates(Server, path);
      }
  }

  lemma NoMoreStates(s: State)
    ensures UrlStates(s, []) == s
  {
  }

  lemma NextState(s: State, u: seq<Byte>, b: Byte)
    ensures UrlStates(s, u + [b]) == ParseUrlChar(UrlStates(s, u), b)
  {
    assert (u + [b])[..|u|] == u;
  }

  lemma SlashStates()
    ensures UrlStates(Schema, Codes("://")) == ServerStart
  {
    hide ParseUrlChar, UrlStates;
    NoMoreStates(Schema);
    NextState(Schema, [], 58);
    NextState(Schema, [] + [58], 47);
    NextState(Schema, [] + [58] + [47], 47);
    SchemeEnd();
    assert Codes("://") == [] + [58] + [47] + [47];
  }

  lemma DeadStays(b: Byte)
    ensures ParseUrlChar(Dead, b) == Dead
  {
  }

  lemma UrlCharTurn(p: Parser, b: Byte)
    requires UrlState(p.state) && ParseUrlChar(p.state, b) != Dead
    ensures Turn(p, b) == Go(p.(state := ParseUrlChar(p.state, b)))
  {
    hide ParseUrlChar, Turn;
    NoBreak(p.state, b);
    UrlTurn(p, b);
  }

  lemma NoBreak(s: State, b: Byte)
    requires ParseUrlChar(s, b) != Dead
    ensures b != SP && b != CR && b != LF
  {
  }

  lemma UrlFirstTurn(p: Parser, b: Byte)
    requires p.state.SpacesBeforeUrl? && p.verb != CONNECT && ParseUrlChar(SpacesBeforeUrl, b) != Dead
    ensures Turn(p, b) == Go(p.(state := ParseUrlChar(SpacesBeforeUrl, b))).(mark := Some(Url))
  {
    NoBreak(SpacesBeforeUrl, b);
    hide ParseUrlChar;
  }

  lemma ParsedState(s: State, b: Byte)
    ensures ParseUrlChar(s, b) != Dead ==> UrlState(ParseUrlChar(s, b))
  {
    hide UrlState;
  }

  lemma {:induction false} FirstOfTarget(r: Run, b: Byte)
    requires !Halted(r) && r.p.state.SpacesBeforeUrl? && r.p.verb != CONNECT && ParseUrlChar(SpacesBeforeUrl, b) != Dead
    ensures Step(r, b) == Run(r.p.(state := ParseUrlChar(SpacesBeforeUrl, b)), Append(r.log, Url, [b]), r.consumed + 1, false)
  {
    hide ParseUrlChar, Step, Turn, Append;
    ParsedState(SpacesBeforeUrl, b);
    UrlFirstTurn(r.p, b);
    StepIs(r, b);
  }

  lemma {:induction false} MoreOfTarget(r: Run, b: Byte)
    requires !Halted(r) && UrlState(r.p.state) && ParseUrlChar(r.p.state, b) != Dead
    ensures Step(r, b) == Run(r.p.(state := ParseUrlChar(r.p.state, b)), Append(r.log, Url, [b]), r.consumed + 1, false)
  {
    hide ParseUrlChar, Step, Turn, Append;
    ParsedState(r.p.state, b);
    UrlCharTurn(r.p, b);
    StepIs(r, b);
  }

  lemma {:induction false} TargetRead(r: Run, u: seq<Byte>)
    requires !Halted(r) && r.p.state.SpacesBeforeUrl? && r.p.verb != CONNECT && u != []
    requires UrlStates(SpacesBeforeUrl, u) != Dead
    ensures UrlState(UrlStates(SpacesBeforeUrl, u))
    ensures Fold(r, u) == Run(r.p.(state := UrlStates(SpacesBeforeUrl, u)), Append(r.log, Url, u), r.consumed + |u|, false)
  {
    hide ParseUrlChar, Step, Append, UrlState;
    var k := |u| - 1;
    var init, b := u[..k], u[k];
    assert u == init + [b];
    ParsedState(UrlStates(SpacesBeforeUrl, init), b);
    if k == 0 {
      assert init == [];
      NothingRead(r);
      FirstOfTarget(r, b);
    } else {
      DeadStays(b);
      TargetRead(r, init);
      MoreOfTarget(Fold(r, init), b);
      AppendTwice(r.log, Url, init, [b]);
    }
  }

  /** In a state where the URL may end, a blank ends it. */
  lemma {:induction false} TargetEnds(r: Run)
    requires !Halted(r) && (InTail(r.p.state) || r.p.state.Server?) && Ends(r.log, Url)
    ensures Step(r, SP) == r.(p := r.p.(state := HttpStart), consumed := r.consumed + 1)
  {
    hide Step, Append, Turn;
    EndedAgain(r.log, Url);
    EndTurn(r.p);
    StepIs(r, SP);
  }

  lemma EndTurn(p: Parser)
    requires InTail(p.state) || p.state.Server?
    ensures Turn(p, SP) == Go(p.(state := HttpStart)).(data := Some(Url))
  {
    hide Turn;
    UrlTurn(p, SP);
  }

  lemma UrlTurn(p: Parser, b: Byte)
    requires UrlState(p.state)
    ensures Turn(p, b) == LineTurn(p, b)
  {
    hide LineTurn, HeaderTurn, ChunkTurn;
  }

  // ----- the version

  predicate Slash(protocol: string) { protocol == "HTTP/" || protocol == "RTSP/" }

  /** A byte that leads from one state to another and is not handed on. */
  lemma {:induction false} Silent(r: Run, b: Byte, q: Parser)
    requires !Halted(r) && !BodyState(r.p.state) && Turn(r.p, b) == Go(q) && q.errno.OK? && KindOf(q.state).None?
    ensures Step(r, b) == r.(p := q, consumed := r.consumed + 1)
  {
    hide Turn, KindOf;
    StepIs(r, b);
  }

  lemma {:induction false} ProtocolRead(r: Run, protocol: string)
    requires !Halted(r) && r.p.state.HttpStart? && Slash(protocol)
    ensures Fold(r, Codes(protocol)) == r.(p := r.p.(state := HttpMajor), consumed := r.consumed + 5)
  {
    hide Step, Fold, Turn;
    var c := Codes(protocol);
    ProtocolTurns(r.p, c[0]);
    var r1 := r.(p := r.p.(state := HttpH), consumed := r.consumed + 1);
    var r2 := r.(p := r.p.(state := HttpHT), consumed := r.consumed + 2);
    var r3 := r.(p := r.p.(state := HttpHTT), consumed := r.consumed + 3);
    var r4 := r.(p := r.p.(state := HttpHTTP), consumed := r.consumed + 4);
    LetterTurns(r.p, c[1]);
    LetterTurns(r.p, c[2]);
    LetterTurns(r.p, c[3]);
    LetterTurns(r.p, c[4]);
    Silent(r, c[0], r1.p);
    Silent(r1, c[1], r2.p);
    Silent(r2, c[2], r3.p);
    Silent(r3, c[3], r4.p);
    Silent(r4, c[4], r.p.(state := HttpMajor));
    FoldOne(r, c[0]);
    FoldSnoc(r, [c[0]], c[1]);
    FoldSnoc(r, [c[0]] + [c[1]], c[2]);
    FoldSnoc(r, [c[0]] + [c[1]] + [c[2]], c[3]);
    FoldSnoc(r, [c[0]] + [c[1]] + [c[2]] + [c[3]], c[4]);
    assert c == [c[0]] + [c[1]] + [c[2]] + [c[3]] + [c[4]];
  }

  lemma ProtocolTurns(p: Parser, b: Byte)
    requires p.state.HttpStart? && (b == 72 || b == 82)
    ensures Turn(p, b) == Go(p.(state := HttpH))
  {
  }

  /** In the states of the version one byte is looked at in one way. */
  lemma VersionTurn(p: Parser, b: Byte)
    requires p.state.HttpH? || p.state.HttpHT? || p.state.HttpHTT? || p.state.HttpHTTP? || p.state.HttpMajor? || p.state.HttpDot?
             || p.state.HttpMinor? || p.state.HttpEnd? || p.state.LineAlmostDone?
    ensures Turn(p, b) == LineTurn(p, b)
  {
    hide LineTurn, HeaderTurn, ChunkTurn;
  }

  /** The letters of the protocol after the first are not looked at. */
  lemma LetterTurns(p: Parser, b: Byte)
    ensures Turn(p.(state := HttpH), b) == Go(p.(state := HttpHT)) && Turn(p.(state := HttpHT), b) == Go(p.(state := HttpHTT))
    ensures Turn(p.(state := HttpHTT), b) == Go(p.(state := HttpHTTP)) && Turn(p.(state := HttpHTTP), b) == Go(p.(state := HttpMajor))
  {
    hide Turn;
    VersionTurn(p.(state := HttpH), b);
    VersionTurn(p.(state := HttpHT), b);
    VersionTurn(p.(state := HttpHTT), b);
    VersionTurn(p.(state := HttpHTTP), b);
  }

  lemma MajorTurns(p: Parser, d: Byte)
    requires d < 10
    ensures Turn(p.(state := HttpMajor), 48 + d) == Go(p.(state := HttpDot, major := d as nat))
    ensures Turn(p.(state := HttpDot), 46) == Go(p.(state := HttpMinor))
  {
    hide Turn;
    VersionTurn(p.(state := HttpMajor), 48 + d);
    VersionTurn(p.(state := HttpDot), 46);
  }

  lemma MinorTurns(p: Parser, d: Byte)
    requires d < 10
    ensures Turn(p.(state := HttpMinor), 48 + d) == Go(p.(state := HttpEnd, minor := d as nat))
    ensures Turn(p.(state := HttpEnd), CR) == Go(p.(state := LineAlmostDone))
    ensures Turn(p.(state := LineAlmostDone), LF) == Go(p.(state := FieldStart))
  {
    hide Turn;
    VersionTurn(p.(state := HttpMinor), 48 + d);
    VersionTurn(p.(state := HttpEnd), CR);
    VersionTurn(p.(state := LineAlmostDone), LF);
  }

  lemma {:induction false} MajorRead(r: Run, major: Byte)
    requires !Halted(r) && r.p.state.HttpMajor? && major < 10
    ensures Fold(r, [48 + major] + [46]) == r.(p := r.p.(state := HttpMinor, major := major as nat), consumed := r.consumed + 2)
  {
    hide Step, Fold, Turn;
    var p := r.p.(major := major as nat);
    var t := r.(p := p.(state := HttpDot), consumed := r.consumed + 1);
    MajorTurns(r.p, major);
    MajorTurns(p, major);
    Silent(r, 48 + major, t.p);
    Silent(t, 46, p.(state := HttpMinor));
    FoldOne(r, 48 + major);
    FoldSnoc(r, [48 + major], 46);
  }

  lemma {:induction false} MinorRead(r: Run, minor: Byte)
    requires !Halted(r) && r.p.state.HttpMinor? && minor < 10
    ensures Fold(r, [48 + minor] + [CR] + [LF]) == r.(p := r.p.(state := FieldStart, minor := minor as nat), consumed := r.consumed + 3)
  {
    hide Step, Fold, Turn;
    var p := r.p.(minor := minor as nat);
    var t := r.(p := p.(state := HttpEnd), consumed := r.consumed + 1);
    var u := r.(p := p.(state := LineAlmostDone), consumed := r.consumed + 2);
    MinorTurns(r.p, minor);
    MinorTurns(p, minor);
    Silent(r, 48 + minor, t.p);
    Silent(t, CR, u.p);
    Silent(u, LF, p.(state := FieldStart));
    FoldOne(r, 48 + minor);
    FoldSnoc(r, [48 + minor], CR);
    FoldSnoc(r, [48 + minor] + [CR], LF);
  }

  function VersionBytes(major: Byte, minor: Byte): seq<Byte>
    requires major < 10 && minor < 10
  {
    ([48 + major] + [46]) + ([48 + minor] + [CR] + [LF])
  }

  lemma {:induction false} NumbersRead(r: Run, major: Byte, minor: Byte)
    requires !Halted(r) && r.p.state.HttpMajor? && major < 10 && minor < 10
    ensures Fold(r, VersionBytes(major, minor))
            == r.(p := r.p.(state := FieldStart, major := major as nat, minor := minor as nat), consumed := r.consumed + 5)
  {
    hide Fold;
    FoldConcat(r, [48 + major] + [46], [48 + minor] + [CR] + [LF]);
    MajorRead(r, major);
    MinorRead(Fold(r, [48 + major] + [46]), minor);
  }

  // ----- the whole line

  datatype FirstLine = FirstLine(verb: Method, target: Target, protocol: string, major: Byte, minor: Byte)

  function FirstBytes(l: FirstLine): seq<Byte>
    requires l.major < 10 && l.minor < 10
  {
    Codes(MethodString(l.verb)) + [SP] + TargetBytes(l.target) + [SP]
      + (Codes(l.protocol) + VersionBytes(l.major, l.minor))
  }

  predicate GoodLine(l: FirstLine)
  {
    l.verb != CONNECT && GoodTarget(l.target) && Slash(l.protocol) && l.major < 10 && l.minor < 10
  }

  lemma SomeTarget(t: Target)
    requires GoodTarget(t)
    ensures TargetBytes(t) != []
  {
  }

  /** Method, target and version are read as they are written, and the target is handed on. */
  lemma {:induction false} FirstLineRead(r: Run, l: FirstLine)
    requires !Halted(r) && r.p.state.StartReq? && GoodLine(l)
    ensures var t := Fold(r, FirstBytes(l));
            t == Run(r.p.(state := FieldStart, flags := {}, contentLength := ULLONG_MAX, verb := l.verb, index := t.p.index,
                          major := l.major as nat, minor := l.minor as nat),
                     r.log + [Notify(MessageBegin), Data(Url, TargetBytes(l.target))], r.consumed + |FirstBytes(l)|, false)
  {
    hide Fold, Step, MethodString, TargetBytes, GoodTarget, UrlStates, Append;
    var m, u := Codes(MethodString(l.verb)) + [SP], TargetBytes(l.target);
    MethodRead(r, l.verb);
    var t := Fold(r, m);
    FoldConcat(r, m, u);
    SomeTarget(l.target);
    TargetStates(l.target);
    TargetRead(t, u);
    var v := Fold(r, m + u);
    AppendEnds(t.log, Url, u);
    UrlIsNew(r.log, u);
    TargetEnds(v);
    FoldSnoc(r, m + u, SP);
    var w := Fold(r, m + u + [SP]);
    var tail := VersionBytes(l.major, l.minor);
    FoldConcat(r, m + u + [SP], Codes(l.protocol) + tail);
    FoldConcat(w, Codes(l.protocol), tail);
    ProtocolRead(w, l.protocol);
    NumbersRead(Fold(w, Codes(l.protocol)), l.major, l.minor);
  }

  lemma UrlIsNew(log: Log, u: seq<Byte>)
    ensures Append(log + [Notify(MessageBegin)], Url, u) == log + [Notify(MessageBegin), Data(Url, u)]
  {
  }
}
