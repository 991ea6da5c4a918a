/** Whether everything a new directory passes down came from the directory it was made
    in.  A flag word or an access mask is the set of its bits. */
module AclInherit {
  import opened Basics

  type Bits = set<nat>

  const FILE_INHERIT: nat := 0
  const DIR_INHERIT: nat := 1
  const NO_PROPAGATE: nat := 2
  const INHERIT_ONLY: nat := 3
  const INHERITED_MARKER: nat := 7

  const ALLOW: nat := 0
  const DENY: nat := 1

  datatype Ace = Ace(aceType: nat, flag: Bits, mask: Bits, who: string)

  /** defaultACL is the raw POSIX default ACL, None where there is none. */
  datatype Facts = Facts(defaultACL: Option<seq<nat>>, inheritable: seq<Ace>)

  /** bytes.Equal does not tell an absent ACL from an empty one. */
  function Raw(acl: Option<seq<nat>>): seq<nat> {
    if acl.None? then [] else acl.value
  }

  // ----- what a child should have -----

  function ExpectedOne(p: Ace): Option<Ace> {
    var flag := p.flag - {INHERITED_MARKER};
    if NO_PROPAGATE in flag then None
    else if DIR_INHERIT in flag then Some(p.(flag := flag - {INHERIT_ONLY}))
    else Some(p.(flag := flag + {INHERIT_ONLY}))
  }

  function Expected(parent: seq<Ace>): seq<Ace> {
    if parent == [] then []
    else
      var one := ExpectedOne(parent[0]);
      (if one.Some? then [one.value] else []) + Expected(parent[1..])
  }

  method ExpectedChildACEs(parent: seq<Ace>) returns (out: seq<Ace>)
    ensures out == Expected(parent)
  {
    hide Expected;
    out := [];
    for i := 0 to |parent|
      invariant Expected(parent) == out + Expected(parent[i..])
    {
      var p := parent[i];
      assert parent[i..][1..] == parent[i + 1..];
      ExpectedStep(parent[i..]);
      var flag := p.flag - {INHERITED_MARKER};
      if NO_PROPAGATE !in flag {
        if DIR_INHERIT in flag {
          flag := flag - {INHERIT_ONLY};
        } else {
          flag := flag + {INHERIT_ONLY};
        }
        out := out + [p.(flag := flag)];
      }
    }
    ExpectedStep(parent[|parent|..]);
  }

  lemma ExpectedStep(parent: seq<Ace>)
    ensures parent == [] ==> Expected(parent) == []
    ensures parent != [] ==>
              Expected(parent) == (if ExpectedOne(parent[0]).Some? then [ExpectedOne(parent[0]).value] else []) + Expected(parent[1..])
  {
  }

  /** Inheritance settles after one generation: what is built in a staging directory and
      moved out carries what it would have been given where it belongs. */
  lemma {:induction false} ExpectedIsStable(parent: seq<Ace>)
    ensures Expected(Expected(parent)) == Expected(parent)
  {
    if parent != [] {
      ExpectedIsStable(parent[1..]);
      var one := ExpectedOne(parent[0]);
      if one.Some? {
        var e := [one.value] + Expected(parent[1..]);
        assert e[1..] == Expected(parent[1..]);
        SettledOne(parent[0]);
      } else {
        assert Expected(parent) == Expected(parent[1..]);
      }
    }
  }

  lemma SettledOne(p: Ace)
    requires ExpectedOne(p).Some?
    ensures ExpectedOne(ExpectedOne(p).value) == ExpectedOne(p)
  {
    var e := ExpectedOne(p).value;
    assert e.flag - {INHERITED_MARKER} == e.flag;
    assert DIR_INHERIT in e.flag ==> e.flag - {INHERIT_ONLY} == e.flag;
    assert DIR_INHERIT !in e.flag ==> e.flag + {INHERIT_ONLY} == e.flag;
  }

  // ----- the judgement -----

  predicate PassedDown(got: Ace, want: Ace) {
    && got.aceType == want.aceType && got.who == want.who
    && (var gf := got.flag - {INHERITED_MARKER};
        || gf == want.flag
        || (got.aceType == ALLOW && DIR_INHERIT in want.flag && gf == want.flag + {INHERIT_ONLY}))
    && (if got.aceType == ALLOW then got.mask <= want.mask
        else if got.aceType == DENY then want.mask <= got.mask
        else got.mask == want.mask)
  }

  /** The scan: each expected entry is taken if it fits the child's next one, and
      otherwise left out if it is an ALLOW. */
  predicate Scan(child: seq<Ace>, want: seq<Ace>) {
    if want == [] then child == []
    else if child != [] && PassedDown(child[0], want[0]) then Scan(child[1..], want[1..])
    else want[0].aceType == ALLOW && Scan(child, want[1..])
  }

  predicate Accepts(child: Facts, parent: Facts) {
    && Raw(child.defaultACL) == Raw(parent.defaultACL)
    && (child.inheritable == [] || Scan(child.inheritable, Expected(parent.inheritable)))
  }

  method InheritedFrom(child: Facts, parent: Facts) returns (ok: bool)
    ensures ok == Accepts(child, parent)
  {
    if Raw(child.defaultACL) != Raw(parent.defaultACL) {
      return false;
    }
    if |child.inheritable| == 0 {
      return true;
    }
    var want := ExpectedChildACEs(parent.inheritable);
    var next := 0;
    for i := 0 to |want|
      invariant next <= |child.inheritable|
      invariant Scan(child.inheritable, want) == Scan(child.inheritable[next..], want[i..])
    {
      assert want[i..][0] == want[i] && want[i..][1..] == want[i + 1..];
      if next < |child.inheritable| {
        assert child.inheritable[next..][0] == child.inheritable[next];
        assert child.inheritable[next..][1..] == child.inheritable[next + 1..];
      }
      if next < |child.inheritable| && PassedDown(child.inheritable[next], want[i]) {
        next := next + 1;
        continue;
      }
      if want[i].aceType == ALLOW {
        continue;
      }
      return false;
    }
    ok := next == |child.inheritable|;
  }

  // ----- the scan is exact -----

  /** The expected entries a choice keeps, in order. */
  function Chosen(want: seq<Ace>, keep: seq<bool>): seq<Ace>
    requires |keep| == |want|
  {
    if want == [] then []
    else (if keep[0] then [want[0]] else []) + Chosen(want[1..], keep[1..])
  }

  /** An order-preserving match: keep says which expected entries have a copy in the
      child; the copies are all the child has, in that order; and nothing but an ALLOW is
      left out. */
  ghost predicate IsMatch(child: seq<Ace>, want: seq<Ace>, keep: seq<bool>) {
    && |keep| == |want|
    && (forall k :: 0 <= k < |want| && !keep[k] ==> want[k].aceType == ALLOW)
    && var chosen := Chosen(want, keep);
       |chosen| == |child| && forall i :: 0 <= i < |child| ==> PassedDown(child[i], chosen[i])
  }

  lemma {:induction false} ScanMatches(child: seq<Ace>, want: seq<Ace>) returns (keep: seq<bool>)
    requires Scan(child, want)
    ensures IsMatch(child, want, keep)
    decreases |want|
  {
    hide PassedDown;
    if want == [] {
      keep := [];
    } else {
      var paired := child != [] && PassedDown(child[0], want[0]);
      var rest := ScanMatches(if paired then child[1..] else child, want[1..]);
      keep := [paired] + rest;
      assert keep[1..] == rest;
      forall k | 0 <= k < |want| && !keep[k] ensures want[k].aceType == ALLOW {
        assert k > 0 ==> want[k] == want[1..][k - 1] && keep[k] == rest[k - 1];
      }
      forall i | 0 <= i < |child| ensures PassedDown(child[i], Chosen(want, keep)[i]) {
        assert paired && i > 0 ==> child[i] == child[1..][i - 1] && Chosen(want, keep)[i] == Chosen(want[1..], rest)[i - 1];
      }
    }
  }

  /** The first entry of the child, if it is an ALLOW, can be given up: whatever it was
      paired with may be left out. */
  lemma {:induction false} GiveUpFirst(child: seq<Ace>, want: seq<Ace>)
    requires child != [] && child[0].aceType == ALLOW && Scan(child, want)
    ensures Scan(child[1..], want)
    decreases |want|
  {
    if want != [] && PassedDown(child[0], want[0]) {
      if |child| > 1 && PassedDown(child[1], want[0]) {
        if child[1].aceType == ALLOW { GiveUpFirst(child[1..], want[1..]); }
      }
    } else if want != [] {
      GiveUpFirst(child, want[1..]);
      if |child| > 1 && PassedDown(child[1], want[0]) {
        GiveUpFirst(child[1..], want[1..]);
      }
    }
  }

  lemma {:induction false} MatchScans(child: seq<Ace>, want: seq<Ace>, keep: seq<bool>)
    requires IsMatch(child, want, keep)
    ensures Scan(child, want)
    decreases |want|
  {
    hide PassedDown;
    if want != [] {
      var chosen, rest := Chosen(want, keep), Chosen(want[1..], keep[1..]);
      forall k | 0 <= k < |want[1..]| && !keep[1..][k] ensures want[1..][k].aceType == ALLOW {
        assert !keep[k + 1];
      }
      if keep[0] {
        assert chosen[0] == want[0] && chosen[1..] == rest;
        forall i | 0 <= i < |child[1..]| ensures PassedDown(child[1..][i], rest[i]) {
          assert PassedDown(child[i + 1], chosen[i + 1]);
        }
        MatchScans(child[1..], want[1..], keep[1..]);
      } else {
        assert chosen == rest;
        MatchScans(child, want[1..], keep[1..]);
        if child != [] && PassedDown(child[0], want[0]) {
          SameType(child[0], want[0]);
          GiveUpFirst(child, want[1..]);
        }
      }
    }
  }

  lemma SameType(got: Ace, want: Ace)
    requires PassedDown(got, want)
    ensures got.aceType == want.aceType
  {
  }

  ghost predicate Matchable(child: seq<Ace>, want: seq<Ace>) {
    exists keep: seq<bool> :: IsMatch(child, want, keep)
  }

  lemma ScanIff(child: seq<Ace>, want: seq<Ace>)
    ensures Scan(child, want) <==> Matchable(child, want)
  {
    hide IsMatch, Scan;
    if Scan(child, want) {
      var keep := ScanMatches(child, want);
    }
    if keep: seq<bool> :| IsMatch(child, want, keep) {
      MatchScans(child, want, keep);
    }
  }

  /** The greedy scan turns away a non-empty list exactly when no order-preserving match
      keeping every entry that is not an ALLOW exists. */
  lemma AcceptsIff(child: Facts, parent: Facts)
    ensures Accepts(child, parent) <==>
              && Raw(child.defaultACL) == Raw(parent.defaultACL)
              && (child.inheritable == [] || Matchable(child.inheritable, Expected(parent.inheritable)))
  {
    ScanIff(child.inheritable, Expected(parent.inheritable));
  }

  /** What may become of an entry that was passed down: the marker on it, an ALLOW of
      less, or only for what is made inside, a DENY of more. */
  predicate Derived(got: Ace, want: Ace) {
    && got.aceType == want.aceType && got.who == want.who
    && (|| got.flag == want.flag || got.flag == want.flag + {INHERITED_MARKER}
        || (got.aceType == ALLOW && DIR_INHERIT in want.flag && got.flag == want.flag + {INHERIT_ONLY}))
    && match got.aceType
       case 0 => got.mask <= want.mask
       case 1 => got.mask >= want.mask
       case _ => got.mask == want.mask
  }

  lemma {:induction false} NoMarkerExpected(parent: seq<Ace>)
    ensures forall e | e in Expected(parent) :: INHERITED_MARKER !in e.flag
  {
    if parent != [] { NoMarkerExpected(parent[1..]); }
  }

  lemma {:induction false} ChosenAreWanted(want: seq<Ace>, keep: seq<bool>)
    requires |keep| == |want|
    ensures forall e | e in Chosen(want, keep) :: e in want
  {
    if want != [] { ChosenAreWanted(want[1..], keep[1..]); }
  }

  /** What the directory really passed down is never turned away, whatever ALLOWs were
      left out of it or narrowed and whatever DENYs widened. */
  lemma DerivedIsAccepted(child: Facts, parent: Facts, keep: seq<bool>)
    requires Raw(child.defaultACL) == Raw(parent.defaultACL)
    requires var want := Expected(parent.inheritable);
             && |keep| == |want| && (forall k :: 0 <= k < |want| && !keep[k] ==> want[k].aceType == ALLOW)
             && |child.inheritable| == |Chosen(want, keep)|
             && forall i :: 0 <= i < |child.inheritable| ==> Derived(child.inheritable[i], Chosen(want, keep)[i])
    ensures Accepts(child, parent)
  {
    hide Scan, Expected, Chosen, PassedDown, Derived;
    var want := Expected(parent.inheritable);
    var chosen := Chosen(want, keep);
    NoMarkerExpected(parent.inheritable);
    ChosenAreWanted(want, keep);
    forall i | 0 <= i < |child.inheritable| ensures PassedDown(child.inheritable[i], chosen[i]) {
      assert chosen[i] in chosen;
      DerivedIsPassedDown(child.inheritable[i], chosen[i]);
    }
    MatchScans(child.inheritable, want, keep);
  }

  lemma DerivedIsPassedDown(got: Ace, want: Ace)
    requires Derived(got, want) && INHERITED_MARKER !in want.flag
    ensures PassedDown(got, want)
  {
    assert (want.flag + {INHERITED_MARKER}) - {INHERITED_MARKER} == want.flag == want.flag - {INHERITED_MARKER};
    assert (want.flag + {INHERIT_ONLY}) - {INHERITED_MARKER} == want.flag + {INHERIT_ONLY};
  }

  // ----- what an ACL grants -----

  /** The directory itself, or a file or a directory made inside it. */
  datatype Scope = Itself | FileInside | DirInside

  predicate Concerns(a: Ace, scope: Scope) {
    match scope
    case Itself => INHERIT_ONLY !in a.flag
    case FileInside => FILE_INHERIT in a.flag
    case DirInside => DIR_INHERIT in a.flag
  }

  predicate Answers(a: Ace, scope: Scope, me: set<string>, bit: nat) {
    (a.aceType == ALLOW || a.aceType == DENY) && Concerns(a, scope) && a.who in me && bit in a.mask
  }

  /** Ordered evaluation (section 6.2.1 of RFC 7530): the first entry that names the
      requester and the bit answers.  me is every who the requester answers to. */
  predicate Grants(acl: seq<Ace>, scope: Scope, me: set<string>, bit: nat) {
    if acl == [] then false
    else if Answers(acl[0], scope, me, bit) then acl[0].aceType == ALLOW
    else Grants(acl[1..], scope, me, bit)
  }

  lemma {:induction false} ScanGrantsNoMore(child: seq<Ace>, want: seq<Ace>, scope: Scope, me: set<string>, bit: nat)
    requires Scan(child, want) && Grants(child, scope, me, bit)
    ensures Grants(want, scope, me, bit)
    decreases |want|
  {
    if child != [] && PassedDown(child[0], want[0]) {
      PassedDownAnswers(child[0], want[0], scope, me, bit);
      if !Answers(child[0], scope, me, bit) && !Answers(want[0], scope, me, bit) {
        ScanGrantsNoMore(child[1..], want[1..], scope, me, bit);
      }
    } else if !Answers(want[0], scope, me, bit) {
      ScanGrantsNoMore(child, want[1..], scope, me, bit);
    }
  }

  /** Of a pair, an ALLOW answers only where the expected one does, and a DENY wherever
      the expected one does. */
  lemma PassedDownAnswers(got: Ace, want: Ace, scope: Scope, me: set<string>, bit: nat)
    requires PassedDown(got, want)
    ensures got.aceType == ALLOW && Answers(got, scope, me, bit) ==> Answers(want, scope, me, bit)
    ensures got.aceType != ALLOW && Answers(want, scope, me, bit) ==> Answers(got, scope, me, bit)
  {
    var gf := got.flag - {INHERITED_MARKER};
    assert forall b :: b in {FILE_INHERIT, DIR_INHERIT, INHERIT_ONLY} ==> (b in gf <==> b in got.flag);
    if gf != want.flag {
      assert forall b :: b in gf <==> b in want.flag || b == INHERIT_ONLY;
    }
  }

  /** Whatever is accepted grants nobody anything, on the directory itself or on what is
      made in it, that the destination's own inheritance would not have granted. */
  lemma AcceptedGrantsNoMore(child: Facts, parent: Facts, scope: Scope, me: set<string>, bit: nat)
    requires Accepts(child, parent) && Grants(child.inheritable, scope, me, bit)
    ensures Grants(Expected(parent.inheritable), scope, me, bit)
  {
    ScanGrantsNoMore(child.inheritable, Expected(parent.inheritable), scope, me, bit);
  }

  // ----- what inheritance means -----

  /** The entries that go on past one generation. */
  function Propagating(acl: seq<Ace>): seq<Ace> {
    if acl == [] then []
    else (if NO_PROPAGATE in acl[0].flag then [] else [acl[0]]) + Propagating(acl[1..])
  }

  lemma ExpectedConcerns(p: Ace, me: set<string>, bit: nat)
    requires ExpectedOne(p).Some?
    ensures var e := ExpectedOne(p).value;
            && e.aceType == p.aceType
            && Answers(e, Itself, me, bit) == Answers(p, DirInside, me, bit)
            && Answers(e, DirInside, me, bit) == Answers(p, DirInside, me, bit)
            && Answers(e, FileInside, me, bit) == Answers(p, FileInside, me, bit)
  {
    assert forall b :: b in {FILE_INHERIT, DIR_INHERIT} ==> (b in p.flag <==> b in ExpectedOne(p).value.flag);
  }

  /** The list a new directory should have grants on the directory itself, and on what is
      made in it, exactly what its parent's list says of directories, and of files, made
      inside. */
  lemma {:induction false} ExpectedGrantsWhatIsInherited(parent: seq<Ace>, me: set<string>, bit: nat)
    ensures Grants(Expected(parent), Itself, me, bit) == Grants(Propagating(parent), DirInside, me, bit)
    ensures Grants(Expected(parent), DirInside, me, bit) == Grants(Propagating(parent), DirInside, me, bit)
    ensures Grants(Expected(parent), FileInside, me, bit) == Grants(Propagating(parent), FileInside, me, bit)
  {
    if parent != [] {
      ExpectedGrantsWhatIsInherited(parent[1..], me, bit);
      assert NO_PROPAGATE in parent[0].flag <==> NO_PROPAGATE in parent[0].flag - {INHERITED_MARKER};
      if ExpectedOne(parent[0]).None? {
        assert Expected(parent) == Expected(parent[1..]) && Propagating(parent) == Propagating(parent[1..]);
      } else {
        hide Answers;
        ExpectedConcerns(parent[0], me, bit);
        assert Expected(parent)[1..] == Expected(parent[1..]) && Propagating(parent)[1..] == Propagating(parent[1..]);
      }
    }
  }

  // ----- chains of directories -----

  /** What a matched entry passes down is again what the expected one passes down. */
  lemma ExpectedOfMatched(got: Ace, p: Ace)
    requires ExpectedOne(p).Some? && PassedDown(got, ExpectedOne(p).value)
    ensures ExpectedOne(got).Some?
    ensures var e, want := ExpectedOne(got).value, ExpectedOne(p).value;
            && e.flag == want.flag && e.aceType == got.aceType && e.mask == got.mask && e.who == got.who
            && PassedDown(e, want)
  {
    var want := ExpectedOne(p).value;
    var gf := got.flag - {INHERITED_MARKER};
    assert INHERITED_MARKER !in want.flag && NO_PROPAGATE !in want.flag;
    assert DIR_INHERIT in want.flag ==> INHERIT_ONLY !in want.flag;
    assert DIR_INHERIT !in want.flag ==> INHERIT_ONLY in want.flag;
    if gf == want.flag {
      SettledOne(p);
      assert gf - {INHERITED_MARKER} == gf;
    } else {
      assert gf - {INHERIT_ONLY} == want.flag;
    }
    assert want.flag - {INHERITED_MARKER} == want.flag;
  }

  lemma {:induction false} ScanOfExpected(child: seq<Ace>, parent: seq<Ace>)
    requires Scan(child, Expected(parent))
    ensures Scan(Expected(child), Expected(parent)) && |Expected(child)| == |child|
    decreases |parent|
  {
    if parent != [] {
      var want, one := Expected(parent), ExpectedOne(parent[0]);
      if one.None? {
        assert want == Expected(parent[1..]);
        ScanOfExpected(child, parent[1..]);
      } else {
        assert want[1..] == Expected(parent[1..]);
        if child != [] && PassedDown(child[0], want[0]) {
          ExpectedOfMatched(child[0], parent[0]);
          ScanOfExpected(child[1..], parent[1..]);
          assert Expected(child)[1..] == Expected(child[1..]);
        } else {
          ScanOfExpected(child, parent[1..]);
          if child != [] && PassedDown(Expected(child)[0], want[0]) {
            GiveUpFirst(Expected(child), want[1..]);
          }
        }
      }
    }
  }

  /** Nor does anything any number of generations further down. */
  lemma NoMoreBelow(child: Facts, parent: Facts, scope: Scope, me: set<string>, bit: nat)
    requires Accepts(child, parent) && Grants(Expected(child.inheritable), scope, me, bit)
    ensures Grants(Expected(Expected(parent.inheritable)), scope, me, bit)
  {
    if child.inheritable != [] {
      ScanOfExpected(child.inheritable, parent.inheritable);
      ScanGrantsNoMore(Expected(child.inheritable), Expected(parent.inheritable), scope, me, bit);
    }
    ExpectedIsStable(parent.inheritable);
  }

  /** Flags as a new directory is given them. */
  predicate Normal(a: Ace) {
    INHERITED_MARKER !in a.flag && (DIR_INHERIT in a.flag ==> INHERIT_ONLY !in a.flag)
  }

  lemma {:induction false} ExpectedIsNormal(parent: seq<Ace>)
    ensures forall x | x in Expected(parent) :: Normal(x)
  {
    if parent != [] { ExpectedIsNormal(parent[1..]); }
  }

  lemma PassedDownTrans(a: Ace, b: Ace, c: Ace)
    requires PassedDown(a, b) && PassedDown(b, c) && Normal(b) && Normal(c)
    ensures PassedDown(a, c)
  {
    assert b.flag - {INHERITED_MARKER} == b.flag;
  }

  /** Matches compose. */
  lemma {:induction false} ScanTrans(a: seq<Ace>, b: seq<Ace>, c: seq<Ace>)
    requires Scan(a, b) && Scan(b, c)
    requires forall x | x in b :: Normal(x)
    requires forall x | x in c :: Normal(x)
    ensures Scan(a, c)
    decreases |c|
  {
    hide PassedDown, Normal;
    if c != [] {
      assert c[0] in c && forall x | x in c[1..] :: x in c;
      if b != [] && PassedDown(b[0], c[0]) {
        assert b[0] in b && forall x | x in b[1..] :: x in b;
        SameType(b[0], c[0]);
        if a != [] && PassedDown(a[0], b[0]) {
          PassedDownTrans(a[0], b[0], c[0]);
          ScanTrans(a[1..], b[1..], c[1..]);
        } else {
          ScanTrans(a, b[1..], c[1..]);
          LeftOut(a, c);
        }
      } else {
        ScanTrans(a, b, c[1..]);
        LeftOut(a, c);
      }
    }
  }

  lemma LeftOut(a: seq<Ace>, c: seq<Ace>)
    requires c != [] && c[0].aceType == ALLOW && Scan(a, c[1..])
    ensures Scan(a, c)
  {
    if a != [] && PassedDown(a[0], c[0]) {
      SameType(a[0], c[0]);
      GiveUpFirst(a, c[1..]);
    }
  }

  /** Along a chain of directories, each accepted against the one it was made in, the
      last is accepted against the first. */
  lemma AcceptsTrans(c: Facts, b: Facts, a: Facts)
    requires Accepts(c, b) && Accepts(b, a)
    ensures Accepts(c, a)
  {
    if c.inheritable != [] && b.inheritable != [] {
      ScanOfExpected(b.inheritable, a.inheritable);
      ExpectedIsNormal(b.inheritable);
      ExpectedIsNormal(a.inheritable);
      ScanTrans(c.inheritable, Expected(b.inheritable), Expected(a.inheritable));
    }
  }

  /** The one thing an empty list hides: a DENY the destination meant to pass down is
      missing, and the scan does not ask. */
  lemma EmptyHidesADeny()
    ensures var deny := Ace(DENY, {DIR_INHERIT}, {1}, "EVERYONE@");
            Accepts(Facts(None, []), Facts(None, [deny])) && !Scan([], Expected([deny]))
  {
  }
}
