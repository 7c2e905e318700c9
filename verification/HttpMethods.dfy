/** The names of the methods: each is read as the method it names. */
module HttpMethods {
  import opened Options
  import opened HttpSyntax

  /** The method assumed after k letters of a method's name. */
  function Assumed(m: Method, k: nat): Option<Method>
    requires k <= |MethodString(m)|
    decreases k
  {
    if k == 0 then None
    else
      var ch := Code(MethodString(m)[k - 1]);
      if k == 1 then FirstMethod(ch)
      else
        var v := Assumed(m, k - 1);
        if v.None? then None
        else if CharAt(MethodString(v.value), k - 1) == ch then v
        else OtherMethod(v.value, k - 1, ch)
  }

  /** The method from which a letter at an index leads to this one, for those not assumed at once. */
  function Origin(m: Method): Option<(Method, nat)>
  {
    match m
    case ANNOUNCE => Some((ACL, 1))
    case DESCRIBE => Some((DELETE, 2))
    case GET_PARAMETER => Some((GET, 3))
    case PUT => Some((POST, 1))
    case PATCH => Some((POST, 1))
    case PROPFIND => Some((POST, 1))
    case PLAY => Some((POST, 1))
    case PURGE => Some((PUT, 2))
    case PAUSE => Some((PATCH, 2))
    case CHECKOUT => Some((CONNECT, 1))
    case COPY => Some((CONNECT, 2))
    case MOVE => Some((MKCOL, 1))
    case MERGE => Some((MKCOL, 1))
    case MSEARCH => Some((MKCOL, 1))
    case MKACTIVITY => Some((MKCOL, 2))
    case MKCALENDAR => Some((MKCOL, 3))
    case SEARCH => Some((SUBSCRIBE, 1))
    case SOURCE => Some((SUBSCRIBE, 1))
    case SETUP => Some((SEARCH, 2))
    case SET_PARAMETER => Some((SETUP, 3))
    case TEARDOWN => Some((TRACE, 1))
    case REBIND => Some((REPORT, 2))
    case RECORD => Some((REPORT, 2))
    case REDIRECT => Some((REPORT, 2))
    case PROPPATCH => Some((PROPFIND, 4))
    case LINK => Some((LOCK, 1))
    case UNSUBSCRIBE => Some((UNLOCK, 2))
    case UNBIND => Some((UNLOCK, 2))
    case UNLINK => Some((UNLOCK, 3))
    case _ => None
  }

  /** The name of a method goes as that of its origin does, up to the letter that differs. */
  predicate Branches(m: Method, v: Method, j: nat)
  {
    && 0 < j < |MethodString(m)| && j <= |MethodString(v)|
    && (forall i :: 0 <= i < j ==> MethodString(m)[i] == MethodString(v)[i])
    && CharAt(MethodString(v), j) != Code(MethodString(m)[j])
    && OtherMethod(v, j, Code(MethodString(m)[j])) == Some(m)
    && (Origin(v).Some? ==> Origin(v).value.1 < j)
  }

  lemma BranchesOff1(m: Method)
    requires m.ANNOUNCE? || m.DESCRIBE?
    ensures Origin(m).Some? && Branches(m, Origin(m).value.0, Origin(m).value.1)
  {
  }

  lemma BranchesOff2(m: Method)
    requires m.GET_PARAMETER? || m.PUT?
    ensures Origin(m).Some? && Branches(m, Origin(m).value.0, Origin(m).value.1)
  {
  }

  lemma BranchesOff3(m: Method)
    requires m.PATCH? || m.PROPFIND?
    ensures Origin(m).Some? && Branches(m, Origin(m).value.0, Origin(m).value.1)
  {
  }

  lemma BranchesOff4(m: Method)
    requires m.PLAY? || m.PURGE?
    ensures Origin(m).Some? && Branches(m, Origin(m).value.0, Origin(m).value.1)
  {
  }

  lemma BranchesOff5(m: Method)
    requires m.PAUSE? || m.CHECKOUT?
    ensures Origin(m).Some? && Branches(m, Origin(m).value.0, Origin(m).value.1)
  {
  }

  lemma BranchesOff6(m: Method)
    requires m.COPY? || m.MOVE?
    ensures Origin(m).Some? && Branches(m, Origin(m).value.0, Origin(m).value.1)
  {
  }

  lemma BranchesOff7(m: Method)
    requires m.MERGE? || m.MSEARCH?
    ensures Origin(m).Some? && Branches(m, Origin(m).value.0, Origin(m).value.1)
  {
  }

  lemma BranchesOff8(m: Method)
    requires m.MKACTIVITY? || m.MKCALENDAR?
    ensures Origin(m).Some? && Branches(m, Origin(m).value.0, Origin(m).value.1)
  {
  }

  lemma BranchesOff9(m: Method)
    requires m.SEARCH? || m.SOURCE?
    ensures Origin(m).Some? && Branches(m, Origin(m).value.0, Origin(m).value.1)
  {
  }

  lemma BranchesOff10(m: Method)
    requires m.SETUP? || m.SET_PARAMETER?
    ensures Origin(m).Some? && Branches(m, Origin(m).value.0, Origin(m).value.1)
  {
  }

  lemma BranchesOff11(m: Method)
    requires m.TEARDOWN? || m.REBIND?
    ensures Origin(m).Some? && Branches(m, Origin(m).value.0, Origin(m).value.1)
  {
  }

  lemma BranchesOff12(m: Method)
    requires m.RECORD? || m.REDIRECT?
    ensures Origin(m).Some? && Branches(m, Origin(m).value.0, Origin(m).value.1)
  {
  }

  lemma BranchesOff13(m: Method)
    requires m.PROPPATCH? || m.LINK?
    ensures Origin(m).Some? && Branches(m, Origin(m).value.0, Origin(m).value.1)
  {
  }

  lemma BranchesOff14(m: Method)
    requires m.UNSUBSCRIBE? || m.UNBIND?
    ensures Origin(m).Some? && Branches(m, Origin(m).value.0, Origin(m).value.1)
  {
  }

  lemma BranchesOff15(m: Method)
    requires m.UNLINK?
    ensures Origin(m).Some? && Branches(m, Origin(m).value.0, Origin(m).value.1)
  {
  }

  lemma BranchesOff(m: Method)
    requires Origin(m).Some?
    ensures Origin(m).Some? && Branches(m, Origin(m).value.0, Origin(m).value.1)
  {
    hide Branches, MethodString, OtherMethod, FirstMethod;
    if m.ANNOUNCE? || m.DESCRIBE? {
      BranchesOff1(m);
    } else if m.GET_PARAMETER? || m.PUT? {
      BranchesOff2(m);
    } else if m.PATCH? || m.PROPFIND? {
      BranchesOff3(m);
    } else if m.PLAY? || m.PURGE? {
      BranchesOff4(m);
    } else if m.PAUSE? || m.CHECKOUT? {
      BranchesOff5(m);
    } else if m.COPY? || m.MOVE? {
      BranchesOff6(m);
    } else if m.MERGE? || m.MSEARCH? {
      BranchesOff7(m);
    } else if m.MKACTIVITY? || m.MKCALENDAR? {
      BranchesOff8(m);
    } else if m.SEARCH? || m.SOURCE? {
      BranchesOff9(m);
    } else if m.SETUP? || m.SET_PARAMETER? {
      BranchesOff10(m);
    } else if m.TEARDOWN? || m.REBIND? {
      BranchesOff11(m);
    } else if m.RECORD? || m.REDIRECT? {
      BranchesOff12(m);
    } else if m.PROPPATCH? || m.LINK? {
      BranchesOff13(m);
    } else if m.UNSUBSCRIBE? || m.UNBIND? {
      BranchesOff14(m);
    } else if m.UNLINK? {
      BranchesOff15(m);
    }
  }

  lemma Begins1(m: Method)
    requires m.DELETE? || m.GET? || m.HEAD? || m.POST? || m.CONNECT? || m.OPTIONS? || m.TRACE? || m.LOCK?
    ensures |MethodString(m)| > 0 && FirstMethod(Code(MethodString(m)[0])) == Some(m)
  {
  }

  lemma Begins2(m: Method)
    requires m.MKCOL? || m.UNLOCK? || m.BIND? || m.ACL? || m.REPORT? || m.NOTIFY? || m.SUBSCRIBE? || m.FLUSH?
    ensures |MethodString(m)| > 0 && FirstMethod(Code(MethodString(m)[0])) == Some(m)
  {
  }

  lemma Begins(m: Method)
    requires Origin(m).None?
    ensures |MethodString(m)| > 0 && FirstMethod(Code(MethodString(m)[0])) == Some(m)
  {
    hide Branches, MethodString, OtherMethod, FirstMethod;
    if m.DELETE? || m.GET? || m.HEAD? || m.POST? || m.CONNECT? || m.OPTIONS? || m.TRACE? || m.LOCK? {
      Begins1(m);
    } else if m.MKCOL? || m.UNLOCK? || m.BIND? || m.ACL? || m.REPORT? || m.NOTIFY? || m.SUBSCRIBE? || m.FLUSH? {
      Begins2(m);
    }
  }

  lemma NoBlanks1(m: Method)
    requires m.DELETE? || m.GET? || m.HEAD? || m.POST? || m.PUT? || m.CONNECT?
    ensures forall i :: 0 <= i < |MethodString(m)| ==> Code(MethodString(m)[i]) > 32
  {
  }

  lemma NoBlanks2(m: Method)
    requires m.OPTIONS? || m.TRACE? || m.COPY? || m.LOCK? || m.MKCOL? || m.MOVE?
    ensures forall i :: 0 <= i < |MethodString(m)| ==> Code(MethodString(m)[i]) > 32
  {
  }

  lemma NoBlanks3(m: Method)
    requires m.PROPFIND? || m.PROPPATCH? || m.SEARCH? || m.UNLOCK? || m.BIND? || m.REBIND?
    ensures forall i :: 0 <= i < |MethodString(m)| ==> Code(MethodString(m)[i]) > 32
  {
  }

  lemma NoBlanks4(m: Method)
    requires m.UNBIND? || m.ACL? || m.REPORT? || m.MKACTIVITY? || m.CHECKOUT? || m.MERGE?
    ensures forall i :: 0 <= i < |MethodString(m)| ==> Code(MethodString(m)[i]) > 32
  {
  }

  lemma NoBlanks5(m: Method)
    requires m.MSEARCH? || m.NOTIFY? || m.SUBSCRIBE? || m.UNSUBSCRIBE? || m.PATCH? || m.PURGE?
    ensures forall i :: 0 <= i < |MethodString(m)| ==> Code(MethodString(m)[i]) > 32
  {
  }

  lemma NoBlanks6(m: Method)
    requires m.MKCALENDAR? || m.LINK? || m.UNLINK? || m.SOURCE? || m.DESCRIBE? || m.ANNOUNCE?
    ensures forall i :: 0 <= i < |MethodString(m)| ==> Code(MethodString(m)[i]) > 32
  {
  }

  lemma NoBlanks7(m: Method)
    requires m.SETUP? || m.PLAY? || m.PAUSE? || m.TEARDOWN? || m.GET_PARAMETER? || m.SET_PARAMETER?
    ensures forall i :: 0 <= i < |MethodString(m)| ==> Code(MethodString(m)[i]) > 32
  {
  }

  lemma NoBlanks8(m: Method)
    requires m.REDIRECT? || m.RECORD? || m.FLUSH?
    ensures forall i :: 0 <= i < |MethodString(m)| ==> Code(MethodString(m)[i]) > 32
  {
  }

  lemma NoBlanks(m: Method)
    ensures forall i :: 0 <= i < |MethodString(m)| ==> Code(MethodString(m)[i]) > 32
  {
    hide Branches, MethodString, OtherMethod, FirstMethod;
    if m.DELETE? || m.GET? || m.HEAD? || m.POST? || m.PUT? || m.CONNECT? {
      NoBlanks1(m);
    } else if m.OPTIONS? || m.TRACE? || m.COPY? || m.LOCK? || m.MKCOL? || m.MOVE? {
      NoBlanks2(m);
    } else if m.PROPFIND? || m.PROPPATCH? || m.SEARCH? || m.UNLOCK? || m.BIND? || m.REBIND? {
      NoBlanks3(m);
    } else if m.UNBIND? || m.ACL? || m.REPORT? || m.MKACTIVITY? || m.CHECKOUT? || m.MERGE? {
      NoBlanks4(m);
    } else if m.MSEARCH? || m.NOTIFY? || m.SUBSCRIBE? || m.UNSUBSCRIBE? || m.PATCH? || m.PURGE? {
      NoBlanks5(m);
    } else if m.MKCALENDAR? || m.LINK? || m.UNLINK? || m.SOURCE? || m.DESCRIBE? || m.ANNOUNCE? {
      NoBlanks6(m);
    } else if m.SETUP? || m.PLAY? || m.PAUSE? || m.TEARDOWN? || m.GET_PARAMETER? || m.SET_PARAMETER? {
      NoBlanks7(m);
    } else if m.REDIRECT? || m.RECORD? || m.FLUSH? {
      NoBlanks8(m);
    }
  }

  lemma {:induction false} SamePrefix(m: Method, v: Method, j: nat)
    requires j <= |MethodString(m)| && j <= |MethodString(v)|
    requires forall i :: 0 <= i < j ==> MethodString(m)[i] == MethodString(v)[i]
    ensures Assumed(m, j) == Assumed(v, j)
    decreases j
  {
    hide MethodString, OtherMethod, FirstMethod;
    if j > 0 {
      SamePrefix(m, v, j - 1);
    }
  }

  /** Once the letter that tells a method from its origin is read, that method is assumed. */
  lemma {:induction false} Settles(m: Method, k: nat)
    requires (if Origin(m).Some? then Origin(m).value.1 else 0) < k <= |MethodString(m)|
    ensures Assumed(m, k) == Some(m)
    decreases k
  {
    hide MethodString, OtherMethod, FirstMethod, Origin, Branches;
    var start := if Origin(m).Some? then Origin(m).value.1 else 0;
    if k - 1 > start {
      Settles(m, k - 1);
    } else if Origin(m).None? {
      Begins(m);
    } else {
      BranchesOff(m);
      BranchMeans(m, Origin(m).value.0, start);
      SamePrefix(m, Origin(m).value.0, start);
      Settles(Origin(m).value.0, start);
    }
  }

  lemma BranchMeans(m: Method, v: Method, j: nat)
    requires Branches(m, v, j)
    ensures 0 < j < |MethodString(m)| && j <= |MethodString(v)|
    ensures forall i :: 0 <= i < j ==> MethodString(m)[i] == MethodString(v)[i]
    ensures CharAt(MethodString(v), j) != Code(MethodString(m)[j]) && OtherMethod(v, j, Code(MethodString(m)[j])) == Some(m)
    ensures Origin(v).Some? ==> Origin(v).value.1 < j
  {
    hide MethodString, OtherMethod, Origin;
  }

  /** The name of every method is read as that method. */
  lemma {:induction false} NameIsMethod(m: Method)
    ensures Assumed(m, |MethodString(m)|) == Some(m)
  {
    hide MethodString, OtherMethod, FirstMethod, Branches;
    if Origin(m).Some? {
      BranchesOff(m);
      BranchMeans(m, Origin(m).value.0, Origin(m).value.1);
    } else {
      Begins(m);
    }
    Settles(m, |MethodString(m)|);
  }

  /** After each letter of a name some method is assumed. */
  lemma {:induction false} AlwaysAssumed(m: Method, k: nat)
    requires 0 < k <= |MethodString(m)|
    ensures Assumed(m, k).Some?
    decreases |MethodString(m)| - k
  {
    hide MethodString, OtherMethod, FirstMethod;
    if k == |MethodString(m)| {
      NameIsMethod(m);
    } else {
      AlwaysAssumed(m, k + 1);
    }
  }
}
