/**
 Conditional-compilation attributes evaluated without knowing features or platforms.

 `Value` is the three-valued evaluation of a configuration predicate, `Holds` its ordinary
 meaning under an assignment of every unknown. A definite value is right under all
 assignments, and an unknown one really can go either way.
 */
module ConfigPredicates {
  import opened Basics

  /** Tokens of an attribute; a tree is a delimited group without its delimiters. */
  datatype Token = Word(text: string) | Comma | Comment | Tree(inner: seq<Token>)

  type Group = seq<Token>

  // ----- Splitting at commas -----

  function Size(tokens: seq<Token>): nat {
    if tokens == [] then 0 else TokenSize(tokens[0]) + Size(tokens[1..])
  }

  function TokenSize(t: Token): nat {
    match t case Tree(inner) => 1 + Size(inner) case _ => 1
  }

  /** The nonempty groups between the commas of one tree; `current` is the group being filled. */
  function Split(tokens: seq<Token>, current: Group): (groups: seq<Group>)
    ensures forall g :: g in groups ==> g != [] && Size(g) <= Size(current) + Size(tokens)
  {
    if tokens == [] then if current == [] then [] else [current]
    else if tokens[0].Comma? then (if current == [] then [] else [current]) + Split(tokens[1..], [])
    else if tokens[0].Comment? then Split(tokens[1..], current)
    else
      SizeAppend(current, tokens[0]);
      Split(tokens[1..], current + [tokens[0]])
  }

  lemma {:induction false} SizeAppend(tokens: seq<Token>, t: Token)
    ensures Size(tokens + [t]) == Size(tokens) + TokenSize(t)
  {
    if tokens != [] {
      assert (tokens + [t])[1..] == tokens[1..] + [t];
      SizeAppend(tokens[1..], t);
    } else {
      assert tokens + [t] == [t];
    }
  }

  function Groups(tree: Token): (groups: seq<Group>)
    requires tree.Tree?
    ensures forall g :: g in groups ==> g != [] && Size(g) < TokenSize(tree)
  {
    Split(tree.inner, [])
  }

  // Three equations that fix the groups of every tree: comments are skipped, a run of tokens without
  // commas is one group, and a comma starts the next one; empty runs are no groups.

  lemma CommentSkipped(a: seq<Token>, b: seq<Token>)
    ensures Groups(Tree(a + [Comment] + b)) == Groups(Tree(a + b))
  {
    SplitSkips(a, b, []);
  }

  lemma {:induction false} SplitSkips(a: seq<Token>, b: seq<Token>, current: Group)
    ensures Split(a + [Comment] + b, current) == Split(a + b, current)
    decreases |a|
  {
    if a == [] {
      assert (a + [Comment] + b)[1..] == a + b == b;
    } else {
      assert (a + [Comment] + b)[1..] == a[1..] + [Comment] + b && (a + b)[1..] == a[1..] + b;
      SplitSkips(a[1..], b, if a[0].Comma? then [] else if a[0].Comment? then current else current + [a[0]]);
    }
  }

  lemma OneGroup(a: Group)
    requires Comma !in a && Comment !in a
    ensures Groups(Tree(a)) == if a == [] then [] else [a]
  {
    SplitRun(a, [], []);
    assert a + [] == a && [] + a == a;
  }

  lemma NextGroup(a: Group, b: seq<Token>)
    requires Comma !in a && Comment !in a
    ensures Groups(Tree(a + [Comma] + b)) == (if a == [] then [] else [a]) + Groups(Tree(b))
  {
    SplitRun(a, [Comma] + b, []);
    assert a + ([Comma] + b) == a + [Comma] + b && [] + a == a && ([Comma] + b)[1..] == b;
  }

  lemma {:induction false} SplitRun(a: Group, b: seq<Token>, current: Group)
    requires Comma !in a && Comment !in a
    ensures Split(a + b, current) == Split(b, current + a)
    decreases |a|
  {
    if a == [] {
      assert a + b == b && current + a == current;
    } else {
      assert (a + b)[1..] == a[1..] + b && current + [a[0]] + a[1..] == current + a;
      SplitRun(a[1..], b, current + [a[0]]);
    }
  }

  /** `name(...)`: a word followed by one tree. */
  predicate IsCall(tokens: Group) {
    |tokens| == 2 && tokens[1].Tree?
  }

  lemma CallMeaning(tokens: Group)
    ensures IsCall(tokens) <==> exists name, inner :: tokens == [name, Tree(inner)]
  {
    if IsCall(tokens) {
      assert tokens == [tokens[0], Tree(tokens[1].inner)];
    }
  }

  lemma ArgumentSmaller(tokens: Group, g: Group)
    requires IsCall(tokens) && g in Groups(tokens[1])
    ensures Size(g) < Size(tokens)
  {
    assert tokens[1..][0] == tokens[1];
  }

  // ----- The three-valued evaluation -----

  function Literal(t: Token, test: bool): Option<bool> {
    if t == Word("test") then Some(test)
    else if t == Word("false") then Some(false)
    else if t == Word("true") then Some(true)
    else None
  }

  function Value(tokens: Group, test: bool): Option<bool>
    decreases Size(tokens)
  {
    if |tokens| == 1 then Literal(tokens[0], test)
    else if !IsCall(tokens) then None
    else
      var name, args := tokens[0], Groups(tokens[1]);
      assert forall i :: 0 <= i < |args| ==> Size(args[i]) < Size(tokens) by {
        forall i | 0 <= i < |args| ensures Size(args[i]) < Size(tokens) {
          ArgumentSmaller(tokens, args[i]);
        }
      }
      if name == Word("all") then
        if exists i :: 0 <= i < |args| && Value(args[i], test) == Some(false) then Some(false)
        else if exists i :: 0 <= i < |args| && Value(args[i], test).None? then None
        else Some(true)
      else if name == Word("any") then
        if exists i :: 0 <= i < |args| && Value(args[i], test) == Some(true) then Some(true)
        else if exists i :: 0 <= i < |args| && Value(args[i], test).None? then None
        else Some(false)
      else if name == Word("not") && |args| == 1 then
        match Value(args[0], test)
        case None => None
        case Some(b) => Some(!b)
      else None
  }

  // ----- The ordinary meaning -----

  /** Where a predicate stands: the argument index taken at each level. */
  type Place = seq<nat>

  /** The unknown predicates that are true, each named by its place and its text. */
  type Assignment = iset<(Place, Group)>

  ghost predicate Holds(tokens: Group, test: bool, at: Place, env: Assignment)
    decreases Size(tokens)
  {
    if tokens == [Word("test")] then test
    else if tokens == [Word("true")] then true
    else if tokens == [Word("false")] then false
    else if !IsCall(tokens) then (at, tokens) in env
    else
      var name, args := tokens[0], Groups(tokens[1]);
      assert forall i :: 0 <= i < |args| ==> Size(args[i]) < Size(tokens) by {
        forall i | 0 <= i < |args| ensures Size(args[i]) < Size(tokens) {
          ArgumentSmaller(tokens, args[i]);
        }
      }
      if name == Word("all") then
        forall i: nat | i < |args| :: Holds(args[i], test, at + [i], env)
      else if name == Word("any") then
        exists i: nat | i < |args| :: Holds(args[i], test, at + [i], env)
      else if name == Word("not") && |args| == 1 then !Holds(args[0], test, at + [0], env)
      else (at, tokens) in env
  }

  /** A definite value is the meaning under every assignment of features and platforms. */
  lemma {:induction false} DefiniteIsRight(tokens: Group, test: bool, at: Place, env: Assignment)
    requires Value(tokens, test).Some?
    ensures Holds(tokens, test, at, env) == Value(tokens, test).value
    decreases Size(tokens)
  {
    if IsCall(tokens) {
      var args := Groups(tokens[1]);
      forall i: nat | i < |args| && Value(args[i], test).Some?
        ensures Holds(args[i], test, at + [i], env) == Value(args[i], test).value
      {
        ArgumentSmaller(tokens, args[i]);
        DefiniteIsRight(args[i], test, at + [i], env);
      }
    }
  }

  // ----- An unknown value can go either way -----

  /** Every unknown in `tokens` is `b`, or the opposite of `b` under an odd number of `not`s. */
  ghost predicate Leaning(tokens: Group, test: bool, at: Place, env: Assignment, b: bool)
    decreases Size(tokens)
  {
    if |tokens| == 1 && Literal(tokens[0], test).Some? then true
    else if !IsCall(tokens) then (at, tokens) in env <==> b
    else
      var name, args := tokens[0], Groups(tokens[1]);
      assert forall i :: 0 <= i < |args| ==> Size(args[i]) < Size(tokens) by {
        forall i | 0 <= i < |args| ensures Size(args[i]) < Size(tokens) {
          ArgumentSmaller(tokens, args[i]);
        }
      }
      if name == Word("all") || name == Word("any") then
        forall i: nat | i < |args| :: Leaning(args[i], test, at + [i], env, b)
      else if name == Word("not") && |args| == 1 then Leaning(args[0], test, at + [0], env, !b)
      else (at, tokens) in env <==> b
  }

  lemma {:induction false} LeaningDecides(tokens: Group, test: bool, at: Place, env: Assignment, b: bool)
    requires Value(tokens, test).None? && Leaning(tokens, test, at, env, b)
    ensures Holds(tokens, test, at, env) == b
    decreases Size(tokens)
  {
    if IsCall(tokens) {
      var args := Groups(tokens[1]);
      var c := if tokens[0] == Word("not") then !b else b;
      forall i: nat | i < |args| && Leaning(args[i], test, at + [i], env, c)
        ensures Value(args[i], test).None? ==> Holds(args[i], test, at + [i], env) == c
        ensures Value(args[i], test).Some? ==> Holds(args[i], test, at + [i], env) == Value(args[i], test).value
      {
        ArgumentSmaller(tokens, args[i]);
        if Value(args[i], test).None? {
          LeaningDecides(args[i], test, at + [i], env, c);
        } else {
          DefiniteIsRight(args[i], test, at + [i], env);
        }
      }
    }
  }

  /** The side that the unknown at `place` inside `tokens` must take for `tokens` to lean to `b`. */
  ghost function Side(tokens: Group, place: Place, b: bool): bool
    decreases |place|
  {
    if place == [] || !IsCall(tokens) || place[0] >= |Groups(tokens[1])| then b
    else Side(Groups(tokens[1])[place[0]], place[1..], if tokens[0] == Word("not") then !b else b)
  }

  lemma {:induction false} SidesLean(tokens: Group, test: bool, at: Place, env: Assignment, b: bool)
    requires forall p: Place, t: Group :: (at + p, t) in env <==> Side(tokens, p, b)
    ensures Leaning(tokens, test, at, env, b)
    decreases Size(tokens)
  {
    assert at + [] == at;
    assert (at + [], tokens) in env <==> b;
    if IsCall(tokens) {
      var args := Groups(tokens[1]);
      var c := if tokens[0] == Word("not") then !b else b;
      forall i: nat | i < |args|
        ensures Leaning(args[i], test, at + [i], env, c)
      {
        ArgumentSmaller(tokens, args[i]);
        forall p: Place, t: Group
          ensures (at + [i] + p, t) in env <==> Side(args[i], p, c)
        {
          assert at + [i] + p == at + ([i] + p);
          assert ([i] + p)[1..] == p;
          assert (at + ([i] + p), t) in env <==> Side(tokens, [i] + p, b);
        }
        SidesLean(args[i], test, at + [i], env, c);
      }
    }
  }

  ghost function Sides(tokens: Group, b: bool): Assignment {
    iset q: (Place, Group) | Side(tokens, q.0, b)
  }

  /** A value is definite exactly when all assignments agree, and then it is what they agree on. */
  lemma ValueExact(tokens: Group, test: bool, b: bool)
    ensures Value(tokens, test) == Some(b) <==> forall env: Assignment :: Holds(tokens, test, [], env) == b
  {
    forall env: Assignment | Value(tokens, test).Some?
      ensures Holds(tokens, test, [], env) == Value(tokens, test).value
    {
      DefiniteIsRight(tokens, test, [], env);
    }
    if Value(tokens, test).None? {
      var env := Sides(tokens, !b);
      forall p: Place, t: Group
        ensures ([] + p, t) in env <==> Side(tokens, p, !b)
      {
        assert [] + p == p;
      }
      SidesLean(tokens, test, [], env, !b);
      LeaningDecides(tokens, test, [], env, !b);
    }
    assert Value(tokens, test) == Some(!b) ==> Holds(tokens, test, [], iset{}) == !b;
  }

  /** Assignments that give equal predicates equal truth, wherever they stand. */
  ghost predicate ByName(env: Assignment) {
    forall p: Place, q: Place, t: Group :: (p, t) in env <==> (q, t) in env
  }

  lemma SplitWord(t: Token, rest: seq<Token>, current: Group)
    requires !t.Comma? && !t.Comment?
    ensures Split([t] + rest, current) == Split(rest, current + [t])
    ensures [t] + [] == [t] == [] + [t]
  {
    assert ([t] + rest)[1..] == rest;
  }

  lemma SplitComma(rest: seq<Token>, current: Group)
    requires current != []
    ensures Split([Comma] + rest, current) == [current] + Split(rest, [])
  {
    assert ([Comma] + rest)[1..] == rest;
  }

  /**
   When one feature occurs twice the evaluation may stay unknown although every assignment
   that treats the two occurrences alike agrees: `any(unix, not(unix))`.
   */
  lemma RepeatedNameStaysUnknown(env: Assignment)
    requires ByName(env)
    ensures var unix := [Word("unix")];
      var either := [Word("any"), Tree([Word("unix"), Comma, Word("not"), Tree(unix)])];
      Value(either, false).None? && Holds(either, false, [], env)
  {
    UnixGroups();
    var tree := Tree([Word("unix"), Comma, Word("not"), Tree(UNIX)]);
    assert Groups(tree) == [UNIX, NOT_UNIX] by {
      assert tree.inner == [Word("unix")] + ([Comma] + NOT_UNIX) && NOT_UNIX == [Word("not")] + [Tree(UNIX)];
      SplitWord(Word("unix"), [Comma] + NOT_UNIX, []);
      SplitComma(NOT_UNIX, UNIX);
      SplitWord(Word("not"), [Tree(UNIX)], []);
      SplitWord(Tree(UNIX), [], [Word("not")]);
      assert [Word("not")] + [Tree(UNIX)] == NOT_UNIX;
    }
    UnixHolds([] + [0], env);
    UnixHolds([] + [1], env);
    hide Holds, Value;
    assert Holds(Groups(tree)[0], false, [] + [0], env) || Holds(Groups(tree)[1], false, [] + [1], env);
  }

  // ----- Ordinary assignments: one truth for each name -----

  /** Evaluating `tokens` at `at` looks up the unknown `t` at place `p`. */
  ghost predicate Consults(tokens: Group, test: bool, at: Place, p: Place, t: Group)
    decreases Size(tokens)
  {
    if |tokens| == 1 && Literal(tokens[0], test).Some? then false
    else if !IsCall(tokens) then p == at && t == tokens
    else
      var name, args := tokens[0], Groups(tokens[1]);
      assert forall i :: 0 <= i < |args| ==> Size(args[i]) < Size(tokens) by {
        forall i | 0 <= i < |args| ensures Size(args[i]) < Size(tokens) {
          ArgumentSmaller(tokens, args[i]);
        }
      }
      if name == Word("all") || name == Word("any") then
        exists i: nat | i < |args| :: Consults(args[i], test, at + [i], p, t)
      else if name == Word("not") && |args| == 1 then Consults(args[0], test, at + [0], p, t)
      else p == at && t == tokens
  }

  /** The meaning depends only on what is looked up. */
  lemma {:induction false} HoldsAgree(tokens: Group, test: bool, at: Place, env: Assignment, env': Assignment)
    requires forall p, t :: Consults(tokens, test, at, p, t) ==> ((p, t) in env <==> (p, t) in env')
    ensures Holds(tokens, test, at, env) == Holds(tokens, test, at, env')
    decreases Size(tokens)
  {
    if !(|tokens| == 1 && Literal(tokens[0], test).Some?) {
      if !IsCall(tokens) {
        assert Consults(tokens, test, at, at, tokens);
      } else {
        var name, args := tokens[0], Groups(tokens[1]);
        if name == Word("all") || name == Word("any") || (name == Word("not") && |args| == 1) {
          forall i: nat | i < |args|
            ensures Holds(args[i], test, at + [i], env) == Holds(args[i], test, at + [i], env')
          {
            ArgumentSmaller(tokens, args[i]);
            HoldsAgree(args[i], test, at + [i], env, env');
          }
        } else {
          assert Consults(tokens, test, at, at, tokens);
        }
      }
    }
  }

  /** No unknown stands at two places. */
  ghost predicate OncePerName(consults: (Place, Group) -> bool) {
    forall p, q, t :: consults(p, t) && consults(q, t) ==> p == q
  }

  /** The assignment that gives each name the truth it has where it is looked up. */
  ghost function Spread(env: Assignment, consults: (Place, Group) -> bool): (r: Assignment)
    ensures ByName(r)
    ensures OncePerName(consults) ==> forall p, t :: consults(p, t) ==> ((p, t) in r <==> (p, t) in env)
  {
    iset q: (Place, Group) | exists p: Place :: consults(p, q.1) && (p, q.1) in env
  }

  /**
   When no unknown occurs twice, a value is definite exactly when all ordinary assignments of
   features and platforms agree on it.
   */
  lemma ValueExactByName(tokens: Group, test: bool, b: bool)
    requires OncePerName((p, t) => Consults(tokens, test, [], p, t))
    ensures Value(tokens, test) == Some(b) <==> forall env | ByName(env) :: Holds(tokens, test, [], env) == b
  {
    var consults := (p: Place, t: Group) => Consults(tokens, test, [], p, t);
    if Value(tokens, test) == Some(b) {
      forall env | ByName(env)
        ensures Holds(tokens, test, [], env) == b
      {
        DefiniteIsRight(tokens, test, [], env);
      }
    } else {
      ValueExact(tokens, test, b);
      var env :| Holds(tokens, test, [], env) != b;
      HoldsAgree(tokens, test, [], env, Spread(env, consults));
    }
  }

  // ----- Attributes -----

  predicate IsTestName(name: string) {
    name == "test" || EndsWith(name, "::test")
  }

  lemma TestNameMeaning(name: string)
    ensures IsTestName(name) <==> name == "test" || exists path :: name == path + "::test"
  {
    if EndsWith(name, "::test") {
      assert name == name[..|name| - 6] + "::test";
    }
  }

  /** Whether an attribute keeps its item; `None` where the script fails on a missing argument. */
  function Enabled(tokens: Group, test: bool): Option<bool>
    decreases Size(tokens), 1
  {
    if tokens == [] then None
    else if tokens[0].Word? && IsTestName(tokens[0].text) then Some(test)
    else if !IsCall(tokens) then Some(true)
    else
      var args := Groups(tokens[1]);
      if tokens[0] == Word("cfg") then
        if args == [] then None else Some(Value(args[0], test) != Some(false))
      else if tokens[0] == Word("cfg_attr") then
        if args == [] then None
        else if Value(args[0], test) == Some(true) then
          assert forall g :: g in args ==> Size(g) < Size(tokens) by {
            forall g | g in args ensures Size(g) < Size(tokens) {
              ArgumentSmaller(tokens, g);
            }
          }
          AllEnabled(args, 1, test, Size(tokens))
        else Some(true)
      else Some(true)
  }

  /** Stops at the first attribute that removes the item. */
  function AllEnabled(args: seq<Group>, from: nat, test: bool, ghost limit: nat): Option<bool>
    requires from <= |args| && forall g :: g in args ==> Size(g) < limit
    decreases limit, 0, |args| - from
  {
    if from == |args| then Some(true)
    else match Enabled(args[from], test)
      case Some(true) => AllEnabled(args, from + 1, test, limit)
      case other => other
  }

  /** Whether the item is there under an assignment; a `cfg_attr` acts only when its predicate holds. */
  ghost predicate Present(tokens: Group, test: bool, at: Place, env: Assignment)
    decreases Size(tokens)
  {
    if tokens == [] then true
    else if tokens[0].Word? && IsTestName(tokens[0].text) then test
    else if !IsCall(tokens) then true
    else
      var args := Groups(tokens[1]);
      if args == [] then true
      else if tokens[0] == Word("cfg") then Holds(args[0], test, at + [0], env)
      else if tokens[0] == Word("cfg_attr") then
        Holds(args[0], test, at + [0], env) ==>
          forall i: nat | 1 <= i < |args| ::
            (assert Size(args[i]) < Size(tokens) by { ArgumentSmaller(tokens, args[i]); }
             Present(args[i], test, at + [i], env))
      else true
  }

  /**
   An attribute on which the script fails: an empty one, a `cfg` or `cfg_attr` without arguments, or a
   `cfg_attr` whose predicate is known to hold and whose attributes all keep the item up to a failing one.
   */
  ghost predicate Fails(tokens: Group, test: bool)
    decreases Size(tokens)
  {
    || tokens == []
    || (&& !(tokens[0].Word? && IsTestName(tokens[0].text)) && IsCall(tokens)
        && tokens[0] in {Word("cfg"), Word("cfg_attr")}
        && (|| Groups(tokens[1]) == []
            || (&& tokens[0] == Word("cfg_attr") && Value(Groups(tokens[1])[0], test) == Some(true)
                && exists i: nat | 1 <= i < |Groups(tokens[1])| ::
                     (assert Size(Groups(tokens[1])[i]) < Size(tokens) by { ArgumentSmaller(tokens, Groups(tokens[1])[i]); }
                      Fails(Groups(tokens[1])[i], test)
                      && forall j :: 1 <= j < i ==> Enabled(Groups(tokens[1])[j], test) == Some(true)))))
  }

  lemma {:induction false} FailsExactly(tokens: Group, test: bool)
    ensures Enabled(tokens, test).None? <==> Fails(tokens, test)
    decreases Size(tokens), 1
  {
    if IsCall(tokens) && !(tokens[0].Word? && IsTestName(tokens[0].text)) && tokens[0] == Word("cfg_attr") {
      var args := Groups(tokens[1]);
      if args != [] && Value(args[0], test) == Some(true) {
        forall g | g in args ensures Size(g) < Size(tokens) {
          ArgumentSmaller(tokens, g);
        }
        AllFailExactly(args, 1, test, Size(tokens));
      }
    }
  }

  /** A list of attributes fails at the first one that does, if all before it keep the item. */
  lemma {:induction false} AllFailExactly(args: seq<Group>, from: nat, test: bool, limit: nat)
    requires from <= |args| && forall g :: g in args ==> Size(g) < limit
    ensures AllEnabled(args, from, test, limit).None?
      <==> exists i :: from <= i < |args| && Fails(args[i], test)
                       && forall j :: from <= j < i ==> Enabled(args[j], test) == Some(true)
    decreases limit, 0, |args| - from
  {
    if from < |args| {
      FailsExactly(args[from], test);
      if Enabled(args[from], test) == Some(true) {
        AllFailExactly(args, from + 1, test, limit);
        hide Enabled, Fails;
        forall i | from <= i < |args| && Fails(args[i], test)
          ensures i > from
        {
        }
      }
    }
  }

  /** Only items absent under every assignment, so also under every ordinary one, are dropped. */
  lemma {:induction false} DroppedIsAbsent(tokens: Group, test: bool, at: Place, env: Assignment)
    requires Enabled(tokens, test) == Some(false)
    ensures !Present(tokens, test, at, env)
    decreases Size(tokens), 1
  {
    if IsCall(tokens) && !(tokens[0].Word? && IsTestName(tokens[0].text)) {
      var args := Groups(tokens[1]);
      DefiniteIsRight(args[0], test, at + [0], env);
      if tokens[0] == Word("cfg_attr") {
        forall g | g in args ensures Size(g) < Size(tokens) {
          ArgumentSmaller(tokens, g);
        }
        var i := OneDropped(args, 1, test, at, env, Size(tokens));
      }
    }
  }

  lemma {:induction false} OneDropped(args: seq<Group>, from: nat, test: bool, at: Place, env: Assignment, limit: nat)
    returns (i: nat)
    requires from <= |args| && forall g :: g in args ==> Size(g) < limit
    requires AllEnabled(args, from, test, limit) == Some(false)
    ensures from <= i < |args| && !Present(args[i], test, at + [i], env)
    decreases limit, 0, |args| - from
  {
    if Enabled(args[from], test) == Some(true) {
      i := OneDropped(args, from + 1, test, at, env, limit);
    } else {
      i := from;
      DroppedIsAbsent(args[from], test, at + [from], env);
    }
  }

  // ----- Only those items are dropped -----

  /** The unknowns of an attribute on the side that keeps the item: `cfg` true, `cfg_attr` false. */
  ghost function KeepingSide(tokens: Group, place: Place): bool
    decreases |place|
  {
    if place == [] || !IsCall(tokens) || place[0] >= |Groups(tokens[1])| then true
    else if place[0] == 0 then Side(Groups(tokens[1])[0], place[1..], tokens[0] != Word("cfg_attr"))
    else KeepingSide(Groups(tokens[1])[place[0]], place[1..])
  }

  /** `env` takes, below `at`, the sides given by `side`. */
  ghost predicate Follows(env: Assignment, at: Place, side: Place -> bool) {
    forall p: Place, t: Group :: (at + p, t) in env <==> side(p)
  }

  lemma FollowsBelow(env: Assignment, at: Place, i: nat, side: Place -> bool, below: Place -> bool)
    requires Follows(env, at, side)
    requires forall p: Place :: below(p) == side([i] + p)
    ensures Follows(env, at + [i], below)
  {
    forall p: Place, t: Group
      ensures (at + [i] + p, t) in env <==> below(p)
    {
      assert at + [i] + p == at + ([i] + p);
    }
  }

  lemma {:induction false} KeptIsPresent(tokens: Group, test: bool, at: Place, env: Assignment)
    requires Enabled(tokens, test) == Some(true)
    requires Follows(env, at, p => KeepingSide(tokens, p))
    ensures Present(tokens, test, at, env)
    decreases Size(tokens)
  {
    if IsCall(tokens) && !(tokens[0].Word? && IsTestName(tokens[0].text)) && Groups(tokens[1]) != [] {
      var args := Groups(tokens[1]);
      forall i: nat | i < |args|
        ensures Size(args[i]) < Size(tokens)
        ensures i > 0 ==> Follows(env, at + [i], p => KeepingSide(args[i], p))
      {
        ArgumentSmaller(tokens, args[i]);
        if i > 0 {
          forall p: Place ensures KeepingSide(args[i], p) == KeepingSide(tokens, [i] + p) {
            assert ([i] + p)[1..] == p;
          }
          FollowsBelow(env, at, i, p => KeepingSide(tokens, p), p => KeepingSide(args[i], p));
        }
      }
      PredicateKeeps(tokens, test, at, env);
      if tokens[0] == Word("cfg_attr") && Value(args[0], test) == Some(true) {
        forall i: nat | 1 <= i < |args|
          ensures Present(args[i], test, at + [i], env)
        {
          EachEnabled(args, 1, test, Size(tokens), i);
          KeptIsPresent(args[i], test, at + [i], env);
        }
      }
    }
  }

  /** The predicate of a `cfg` not known false holds there; that of a `cfg_attr` not known true fails. */
  lemma PredicateKeeps(tokens: Group, test: bool, at: Place, env: Assignment)
    requires IsCall(tokens) && Groups(tokens[1]) != []
    requires Follows(env, at, p => KeepingSide(tokens, p))
    ensures var g, keep := Groups(tokens[1])[0], tokens[0] != Word("cfg_attr");
      Value(g, test) != Some(!keep) ==> Holds(g, test, at + [0], env) == keep
  {
    var g, keep := Groups(tokens[1])[0], tokens[0] != Word("cfg_attr");
    forall p: Place ensures Side(g, p, keep) == KeepingSide(tokens, [0] + p) {
      assert ([0] + p)[1..] == p;
    }
    FollowsBelow(env, at, 0, p => KeepingSide(tokens, p), p => Side(g, p, keep));
    SidesLean(g, test, at + [0], env, keep);
    if Value(g, test).None? {
      LeaningDecides(g, test, at + [0], env, keep);
    } else {
      DefiniteIsRight(g, test, at + [0], env);
    }
  }

  lemma {:induction false} EachEnabled(args: seq<Group>, from: nat, test: bool, limit: nat, i: nat)
    requires from <= i < |args| && forall g :: g in args ==> Size(g) < limit
    requires AllEnabled(args, from, test, limit) == Some(true)
    ensures Enabled(args[i], test) == Some(true)
    decreases |args| - from
  {
    if from < i {
      EachEnabled(args, from + 1, test, limit, i);
    }
  }

  /** An item carries all its attributes; the i-th one stands at place [i]. */
  ghost predicate ItemPresent(attributes: seq<Group>, test: bool, env: Assignment) {
    forall i: nat | i < |attributes| :: Present(attributes[i], test, [i], env)
  }

  /** An item is dropped exactly when it is absent under every assignment of its unknowns, per occurrence. */
  lemma ItemExact(attributes: seq<Group>, test: bool, limit: nat)
    requires forall g :: g in attributes ==> Size(g) < limit
    requires AllEnabled(attributes, 0, test, limit).Some?
    ensures AllEnabled(attributes, 0, test, limit) == Some(false)
      <==> forall env: Assignment :: !ItemPresent(attributes, test, env)
  {
    var kept := AllEnabled(attributes, 0, test, limit).value;
    if !kept {
      forall env: Assignment
        ensures !ItemPresent(attributes, test, env)
      {
        var i := OneDropped(attributes, 0, test, [], env, limit);
        assert [] + [i] == [i];
      }
    } else {
      var side := (p: Place) => p != [] && p[0] < |attributes| && KeepingSide(attributes[p[0]], p[1..]);
      var env: Assignment := iset q: (Place, Group) | side(q.0);
      forall i: nat | i < |attributes|
        ensures Present(attributes[i], test, [i], env)
      {
        EachEnabled(attributes, 0, test, limit, i);
        forall p: Place, t: Group ensures ([i] + p, t) in env <==> KeepingSide(attributes[i], p) {
          assert ([i] + p)[1..] == p;
        }
        KeptIsPresent(attributes[i], test, [i], env);
      }
      assert ItemPresent(attributes, test, env);
    }
  }

  // ----- Items under ordinary assignments -----

  /** Deciding whether an attribute at `at` leaves its item looks up `t` at place `p`. */
  ghost predicate AttributeConsults(tokens: Group, test: bool, at: Place, p: Place, t: Group)
    decreases Size(tokens)
  {
    if tokens == [] || (tokens[0].Word? && IsTestName(tokens[0].text)) || !IsCall(tokens) then false
    else
      var args := Groups(tokens[1]);
      if args == [] then false
      else if tokens[0] == Word("cfg") then Consults(args[0], test, at + [0], p, t)
      else if tokens[0] == Word("cfg_attr") then
        || Consults(args[0], test, at + [0], p, t)
        || exists i: nat | 1 <= i < |args| ::
             (assert Size(args[i]) < Size(tokens) by { ArgumentSmaller(tokens, args[i]); }
              AttributeConsults(args[i], test, at + [i], p, t))
      else false
  }

  lemma {:induction false} PresentAgree(tokens: Group, test: bool, at: Place, env: Assignment, env': Assignment)
    requires forall p, t :: AttributeConsults(tokens, test, at, p, t) ==> ((p, t) in env <==> (p, t) in env')
    ensures Present(tokens, test, at, env) == Present(tokens, test, at, env')
    decreases Size(tokens)
  {
    if IsCall(tokens) && !(tokens[0].Word? && IsTestName(tokens[0].text)) && Groups(tokens[1]) != [] {
      var args := Groups(tokens[1]);
      if tokens[0] == Word("cfg") || tokens[0] == Word("cfg_attr") {
        HoldsAgree(args[0], test, at + [0], env, env');
      }
      if tokens[0] == Word("cfg_attr") {
        forall i: nat | 1 <= i < |args|
          ensures Size(args[i]) < Size(tokens)
          ensures Present(args[i], test, at + [i], env) == Present(args[i], test, at + [i], env')
        {
          ArgumentSmaller(tokens, args[i]);
          PresentAgree(args[i], test, at + [i], env, env');
        }
      }
    }
  }

  ghost predicate ItemConsults(attributes: seq<Group>, test: bool, p: Place, t: Group) {
    exists i: nat | i < |attributes| :: AttributeConsults(attributes[i], test, [i], p, t)
  }

  /**
   When no unknown occurs twice in all its attributes together, an item is dropped exactly when it
   is absent under every ordinary assignment of features and platforms.
   */
  lemma ItemExactByName(attributes: seq<Group>, test: bool, limit: nat)
    requires forall g :: g in attributes ==> Size(g) < limit
    requires AllEnabled(attributes, 0, test, limit).Some?
    requires OncePerName((p, t) => ItemConsults(attributes, test, p, t))
    ensures AllEnabled(attributes, 0, test, limit) == Some(false)
      <==> forall env | ByName(env) :: !ItemPresent(attributes, test, env)
  {
    ItemExact(attributes, test, limit);
    if AllEnabled(attributes, 0, test, limit) != Some(false) {
      var consults := (p: Place, t: Group) => ItemConsults(attributes, test, p, t);
      var env :| ItemPresent(attributes, test, env);
      var ordinary := Spread(env, consults);
      forall i: nat | i < |attributes|
        ensures Present(attributes[i], test, [i], ordinary)
      {
        forall p, t | AttributeConsults(attributes[i], test, [i], p, t)
          ensures (p, t) in env <==> (p, t) in ordinary
        {
          assert ItemConsults(attributes, test, p, t) && consults(p, t);
        }
        PresentAgree(attributes[i], test, [i], env, ordinary);
      }
      assert ByName(ordinary) && ItemPresent(attributes, test, ordinary);
    }
  }

  const UNIX: Group := [Word("unix")]
  const NOT_UNIX: Group := [Word("not"), Tree(UNIX)]
  const CFG_UNIX: Group := [Word("cfg"), Tree(UNIX)]
  const CFG_NOT_UNIX: Group := [Word("cfg"), Tree(NOT_UNIX)]

  lemma UnixGroups()
    ensures Groups(Tree(UNIX)) == [UNIX] && Groups(Tree(NOT_UNIX)) == [NOT_UNIX]
    ensures Value(UNIX, false).None? && Value(NOT_UNIX, false).None?
  {
    SplitWord(Word("unix"), [], []);
    assert NOT_UNIX == [Word("not")] + [Tree(UNIX)];
    SplitWord(Word("not"), [Tree(UNIX)], []);
    SplitWord(Tree(UNIX), [], [Word("not")]);
    assert [Word("not")] + [Tree(UNIX)] == NOT_UNIX;
  }

  lemma UnixHolds(at: Place, env: Assignment)
    ensures Holds(UNIX, false, at, env) <==> (at, UNIX) in env
    ensures Holds(NOT_UNIX, false, at, env) <==> (at + [0], UNIX) !in env
  {
    UnixGroups();
  }

  /** With a name in two attributes an item that no platform has is kept: `cfg(unix)` and `cfg(not(unix))`. */
  lemma RepeatedNameKeepsItem(env: Assignment, limit: nat)
    requires ByName(env) && Size(CFG_UNIX) < limit && Size(CFG_NOT_UNIX) < limit
    ensures AllEnabled([CFG_UNIX, CFG_NOT_UNIX], 0, false, limit) == Some(true)
    ensures !ItemPresent([CFG_UNIX, CFG_NOT_UNIX], false, env)
  {
    UnixGroups();
    hide Groups, Value;
    var attributes := [CFG_UNIX, CFG_NOT_UNIX];
    UnixHolds([0] + [0], env);
    UnixHolds([1] + [0], env);
    hide Holds;
    assert Present(attributes[0], false, [0], env) <==> Holds(UNIX, false, [0] + [0], env);
    assert Present(attributes[1], false, [1], env) <==> Holds(NOT_UNIX, false, [1] + [0], env);
    assert Enabled(CFG_UNIX, false) == Some(true) && Enabled(CFG_NOT_UNIX, false) == Some(true);
    assert AllEnabled(attributes, 2, false, limit) == Some(true);
    assert AllEnabled(attributes, 1, false, limit) == Some(true);
  }
}
