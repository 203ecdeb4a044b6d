/** Command-line argument interpretation: `parse_args` in src/main.rs. */
module Args {

  /** The triple `parse_args` returns: the two flags and the username
      (the empty string when none was given). */
  datatype Invocation = Invocation(help: bool, version: bool, username: string)

  /** The two spellings of the help flag. */
  const HelpShort: string := "-h"
  const HelpLong: string := "--help"

  /** The two spellings of the version flag. */
  const VersionShort: string := "-V"
  const VersionLong: string := "--version"

  /** `arg` is one of the two spellings of a flag. */
  predicate Spells(arg: string, short: string, long: string) { arg == short || arg == long }

  predicate IsHelpFlag(arg: string) { Spells(arg, HelpShort, HelpLong) }

  predicate IsVersionFlag(arg: string) { Spells(arg, VersionShort, VersionLong) }

  predicate StartsWithDash(arg: string) { |arg| > 0 && arg[0] == '-' }

  /** A token that claims the username slot: it falls through to the last
      match arm (it does not start with '-') and it is not empty, so that
      storing it makes the slot non-empty. */
  predicate IsSubject(arg: string) { |arg| > 0 && arg[0] != '-' }

  /** The arguments after the program name (`args.iter().skip(1)`). */
  function Operands(args: seq<string>): (rest: seq<string>)
    ensures |args| > 0 ==> rest == args[1..]
    ensures |args| == 0 ==> rest == []
  {
    if |args| == 0 then [] else args[1..]
  }

  /** Some token of `s` spells the flag. */
  predicate HasFlag(s: seq<string>, short: string, long: string)
  {
    exists i | 0 <= i < |s| :: Spells(s[i], short, long)
  }

  /** The first token of `s` that claims the username slot, or "". */
  function FirstSubject(s: seq<string>): (r: string)
    ensures r == "" <==> forall i :: 0 <= i < |s| ==> !IsSubject(s[i])
    ensures r != "" ==> IsSubject(r)
    ensures r != "" ==> exists k :: 0 <= k < |s| && s[k] == r && forall j :: 0 <= j < k ==> !IsSubject(s[j])
  {
    if |s| == 0 then ""
    else if IsSubject(s[0]) then s[0]
    else
      var r := FirstSubject(s[1..]);
      assert r != "" ==> (exists k :: 1 <= k < |s| && s[k] == r && forall j :: 0 <= j < k ==> !IsSubject(s[j])) by {
        if r != "" {
          var k :| 0 <= k < |s[1..]| && s[1..][k] == r && forall j :: 0 <= j < k ==> !IsSubject(s[1..][j]);
          assert s[k + 1] == r;
          forall j | 0 <= j < k + 1 ensures !IsSubject(s[j]) {
            if j > 0 { assert s[j] == s[1..][j - 1]; }
          }
        }
      }
      r
  }

  /** What `parse_args` computes, stated declaratively over the operands:
      each flag is set iff some operand spells it, and the username is the
      first operand that claims the slot. */
  function Parse(args: seq<string>): Invocation
  {
    var rest := Operands(args);
    Invocation(
      HasFlag(rest, HelpShort, HelpLong),
      HasFlag(rest, VersionShort, VersionLong),
      FirstSubject(rest))
  }

  /** Appending one token: the slot, once claimed, is never overwritten. */
  lemma {:induction false} FirstSubjectSnoc(s: seq<string>, a: string)
    ensures FirstSubject(s + [a]) ==
      if FirstSubject(s) != "" then FirstSubject(s) else if IsSubject(a) then a else ""
  {
    if |s| == 0 {
      assert s + [a] == [a];
      assert [a][1..] == [];
    } else {
      assert (s + [a])[0] == s[0];
      assert (s + [a])[1..] == s[1..] + [a];
      FirstSubjectSnoc(s[1..], a);
    }
  }

  /** Appending one token: a flag is present afterwards iff it was before
      or the token spells it. */
  lemma HasFlagSnoc(s: seq<string>, a: string, short: string, long: string)
    ensures HasFlag(s + [a], short, long) <==> HasFlag(s, short, long) || Spells(a, short, long)
  {
    var next := s + [a];
    assert next[|s|] == a;
    assert forall j :: 0 <= j < |s| ==> next[j] == s[j];
  }

  /** Both recognised flags are dash-led, so neither claims the slot. */
  lemma FlagsStartWithDash(arg: string)
    requires IsHelpFlag(arg) || IsVersionFlag(arg)
    ensures StartsWithDash(arg) && !IsSubject(arg)
  {
  }

  /** The loop of `parse_args`: one pass over the operands updating the
      three locals. */
  method ParseArgs(args: seq<string>) returns (help: bool, version: bool, username: string)
    ensures Invocation(help, version, username) == Parse(args)
  {
    help, version, username := false, false, "";
    var rest := Operands(args);
    for i := 0 to |rest|
      invariant help == HasFlag(rest[..i], HelpShort, HelpLong)
      invariant version == HasFlag(rest[..i], VersionShort, VersionLong)
      invariant username == FirstSubject(rest[..i])
    {
      var arg := rest[i];
      assert rest[..i + 1] == rest[..i] + [arg];
      HasFlagSnoc(rest[..i], arg, HelpShort, HelpLong);
      HasFlagSnoc(rest[..i], arg, VersionShort, VersionLong);
      FirstSubjectSnoc(rest[..i], arg);
      if IsHelpFlag(arg) {
        FlagsStartWithDash(arg);
        help := true;
      } else if IsVersionFlag(arg) {
        FlagsStartWithDash(arg);
        version := true;
      } else if StartsWithDash(arg) {
        // an unrecognised flag is dropped
      } else if username == "" {
        username := arg;
      }
    }
    assert rest[..|rest|] == rest;
  }

  /** Changing the program name never changes the parse. */
  lemma IgnoresProgramName(p: string, q: string, rest: seq<string>)
    ensures Parse([p] + rest) == Parse([q] + rest)
  {
    assert ([p] + rest)[1..] == rest;
    assert ([q] + rest)[1..] == rest;
  }

  /** The parse in terms of the original argument positions (index 0 is
      the program name): each flag is set iff some later argument spells
      it, and the username is the first later argument that is non-empty
      and does not start with '-', or "" when there is none. */
  lemma ParseCharacterized(args: seq<string>)
    ensures Parse(args).help <==> exists i :: 1 <= i < |args| && IsHelpFlag(args[i])
    ensures Parse(args).version <==> exists i :: 1 <= i < |args| && IsVersionFlag(args[i])
    ensures Parse(args).username == "" <==> forall i :: 1 <= i < |args| ==> !IsSubject(args[i])
    ensures Parse(args).username != "" ==>
      !StartsWithDash(Parse(args).username) &&
      exists k :: 1 <= k < |args| && args[k] == Parse(args).username &&
        forall j :: 1 <= j < k ==> !IsSubject(args[j])
  {
    var rest := Operands(args);
    forall i | 1 <= i < |args| ensures args[i] == rest[i - 1] { }
    assert HasFlag(rest, HelpShort, HelpLong) ==> exists i :: 1 <= i < |args| && IsHelpFlag(args[i]) by {
      if i :| 0 <= i < |rest| && IsHelpFlag(rest[i]) { assert args[i + 1] == rest[i]; }
    }
    assert HasFlag(rest, VersionShort, VersionLong) ==> exists i :: 1 <= i < |args| && IsVersionFlag(args[i]) by {
      if i :| 0 <= i < |rest| && IsVersionFlag(rest[i]) { assert args[i + 1] == rest[i]; }
    }
    var u := FirstSubject(rest);
    if u == "" {
      forall i | 1 <= i < |args| ensures !IsSubject(args[i]) { assert args[i] == rest[i - 1]; }
    } else {
      var k :| 0 <= k < |rest| && rest[k] == u && forall j :: 0 <= j < k ==> !IsSubject(rest[j]);
      assert args[k + 1] == u;
      forall j | 1 <= j < k + 1 ensures !IsSubject(args[j]) { assert args[j] == rest[j - 1]; }
    }
  }

  /** The tokens that do not start with '-', in order. */
  function Words(s: seq<string>): (w: seq<string>)
    ensures |w| <= |s|
    ensures forall i :: 0 <= i < |w| ==> !StartsWithDash(w[i])
  {
    if |s| == 0 then []
    else if StartsWithDash(s[0]) then Words(s[1..])
    else [s[0]] + Words(s[1..])
  }

  lemma {:induction false} WordsAppend(s: seq<string>, t: seq<string>)
    ensures Words(s + t) == Words(s) + Words(t)
  {
    if |s| == 0 {
      assert s + t == t;
    } else {
      assert (s + t)[0] == s[0];
      assert (s + t)[1..] == s[1..] + t;
      WordsAppend(s[1..], t);
    }
  }

  /** `Words` keeps exactly the tokens that do not start with '-'. */
  lemma {:induction false} WordsMembers(s: seq<string>)
    ensures forall x :: x in Words(s) <==> x in s && !StartsWithDash(x)
  {
    if |s| > 0 {
      WordsMembers(s[1..]);
      assert s == [s[0]] + s[1..];
    }
  }

  /** `Words` keeps the order of the tokens it keeps: the token at index
      `i`, when not dash-led, sits in `Words(s)` at the position given by
      the number of words before it, and later words sit further on. */
  lemma WordsInOrder(s: seq<string>, i: nat, j: nat)
    requires i < j <= |s|
    ensures |Words(s[..i])| <= |Words(s[..j])|
    ensures !StartsWithDash(s[i]) ==>
      |Words(s[..i])| < |Words(s[..j])| && |Words(s[..i])| < |Words(s)| &&
      Words(s)[|Words(s[..i])|] == s[i]
  {
    assert s[..j] == s[..i] + s[i..j];
    WordsAppend(s[..i], s[i..j]);
    assert s == s[..i] + s[i..];
    WordsAppend(s[..i], s[i..]);
    assert s[i..][0] == s[i] && s[i..j][0] == s[i];
  }

  /** Dash-led tokens never claim the username slot. */
  lemma {:induction false} FirstSubjectOfWords(s: seq<string>)
    ensures FirstSubject(Words(s)) == FirstSubject(s)
  {
    if |s| > 0 {
      FirstSubjectOfWords(s[1..]);
      if !StartsWithDash(s[0]) {
        assert ([s[0]] + Words(s[1..]))[1..] == Words(s[1..]);
      }
    }
  }

  /** Inserting, removing or reordering tokens that start with '-' (the
      recognised flags included) never changes the username: it depends
      only on the order of the other tokens. */
  lemma UsernameDependsOnlyOnWords(a: seq<string>, b: seq<string>)
    requires Words(Operands(a)) == Words(Operands(b))
    ensures Parse(a).username == Parse(b).username
  {
    FirstSubjectOfWords(Operands(a));
    FirstSubjectOfWords(Operands(b));
  }

  /** Inserting a token that does not spell a flag leaves it as it was. */
  lemma HasFlagInsert(x: seq<string>, t: string, y: seq<string>, short: string, long: string)
    requires !Spells(t, short, long)
    ensures HasFlag(x + [t] + y, short, long) == HasFlag(x + y, short, long)
  {
    var s, s' := x + y, x + [t] + y;
    forall i | 0 <= i < |s| ensures s[i] == s'[if i < |x| then i else i + 1] { }
    forall i | 0 <= i < |s'| && i != |x| ensures s'[i] == s[if i < |x| then i else i - 1] { }
    assert s'[|x|] == t;
  }

  /** A flag's presence does not depend on the order of the tokens. */
  lemma HasFlagPermutation(s: seq<string>, t: seq<string>, short: string, long: string)
    requires multiset(s) == multiset(t)
    ensures HasFlag(s, short, long) == HasFlag(t, short, long)
  {
    forall i | 0 <= i < |s| ensures exists j :: 0 <= j < |t| && t[j] == s[i] {
      assert s[i] in multiset(t);
    }
    forall j | 0 <= j < |t| ensures exists i :: 0 <= i < |s| && s[i] == t[j] {
      assert t[j] in multiset(s);
    }
  }

  /** An unrecognised flag, inserted anywhere after the program name,
      changes none of the three results. */
  lemma UnknownFlagIgnored(args: seq<string>, k: nat, flag: string)
    requires 1 <= k <= |args|
    requires StartsWithDash(flag) && !IsHelpFlag(flag) && !IsVersionFlag(flag)
    ensures Parse(args[..k] + [flag] + args[k..]) == Parse(args)
  {
    var extended := args[..k] + [flag] + args[k..];
    var x, y := args[1..k], args[k..];
    assert Operands(args) == x + y;
    assert Operands(extended) == x + [flag] + y;
    WordsAppend(x, y);
    WordsAppend(x + [flag], y);
    WordsAppend(x, [flag]);
    assert Words([flag]) == [];
    assert x + [] == x;
    UsernameDependsOnlyOnWords(args, extended);
    HasFlagInsert(x, flag, y, HelpShort, HelpLong);
    HasFlagInsert(x, flag, y, VersionShort, VersionLong);
  }

  /** The order of the operands matters only through the order of those
      that do not start with '-': any rearrangement that keeps it yields
      the same parse (so `--help -V` and `-V --help` agree). */
  lemma FlagOrderIrrelevant(a: seq<string>, b: seq<string>)
    requires multiset(Operands(a)) == multiset(Operands(b))
    requires Words(Operands(a)) == Words(Operands(b))
    ensures Parse(a) == Parse(b)
  {
    UsernameDependsOnlyOnWords(a, b);
    HasFlagPermutation(Operands(a), Operands(b), HelpShort, HelpLong);
    HasFlagPermutation(Operands(a), Operands(b), VersionShort, VersionLong);
  }

  /** Only the first word is kept: `-V alice bob` names alice. */
  lemma ExampleFirstWordWins()
    ensures Parse(["githubfetch", "-V", "alice", "bob"]) == Invocation(false, true, "alice")
  {
    var v := ["githubfetch", "-V", "alice", "bob"];
    assert Operands(v) == ["-V", "alice", "bob"];
    assert Operands(v)[1..] == ["alice", "bob"];
    assert Spells(Operands(v)[0], VersionShort, VersionLong);
  }

  /** The two flags may come in either order. */
  lemma ExampleFlagOrder()
    ensures Parse(["githubfetch", "--help", "-V"]) == Invocation(true, true, "")
    ensures Parse(["githubfetch", "-V", "--help"]) == Invocation(true, true, "")
  {
    var x, y := ["githubfetch", "--help", "-V"], ["githubfetch", "-V", "--help"];
    assert Operands(x) == ["--help", "-V"] && Operands(y) == ["-V", "--help"];
    assert IsHelpFlag(Operands(x)[0]) && IsVersionFlag(Operands(x)[1]);
    assert IsHelpFlag(Operands(y)[1]) && IsVersionFlag(Operands(y)[0]);
    assert Operands(x)[1..] == ["-V"] && Operands(y)[1..] == ["--help"];
  }

  /** An unknown flag is dropped, and an empty argument leaves the slot free. */
  lemma ExampleDroppedTokens()
    ensures Parse(["githubfetch", "--bogus", "carol"]) == Invocation(false, false, "carol")
    ensures Parse(["githubfetch", "", "dave"]) == Invocation(false, false, "dave")
    ensures Parse(["githubfetch"]) == Invocation(false, false, "")
    ensures Parse([]) == Invocation(false, false, "")
  {
    var c, e := ["githubfetch", "--bogus", "carol"], ["githubfetch", "", "dave"];
    assert Operands(c) == ["--bogus", "carol"] && Operands(c)[1..] == ["carol"];
    assert Operands(e) == ["", "dave"] && Operands(e)[1..] == ["dave"];
  }
}
