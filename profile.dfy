/** The decoded profile record and its plain-text rendering (the
    `println!` block of `main` in src/main.rs, with the colour escapes
    removed). */
module Profile {
  import opened Options
  import opened Text

  /** Rust's `usize` on a 64-bit target: the decoder accepts no count
      outside this range. */
  newtype usize = x: int | 0 <= x < 0x1_0000_0000_0000_0000

  /** `UserInfo`: every field may be absent from the decoded JSON. */
  datatype UserInfo = UserInfo(
    login: Option<string>,
    id: Option<usize>,
    name: Option<string>,
    company: Option<string>,
    blog: Option<string>,
    location: Option<string>,
    email: Option<string>,
    bio: Option<string>,
    publicRepos: Option<usize>,
    publicGists: Option<usize>,
    followers: Option<usize>,
    following: Option<usize>,
    createdAt: Option<string>)

  /** `unwrap_or_default` on a text field. */
  function TextOf(field: Option<string>): (s: string)
    ensures field.None? ==> s == ""
    ensures field.Some? ==> s == field.value
  {
    field.GetOr("")
  }

  /** `unwrap_or_default` on a count, then its decimal form. */
  function CountOf(field: Option<usize>): (s: string)
    ensures field.None? ==> s == "0"
    ensures |s| >= 1 && (|s| > 1 ==> s[0] != '0')
    ensures forall i :: 0 <= i < |s| ==> IsDigit(s[i])
    ensures field.Some? ==> DecimalValue(s) == field.value as nat
  {
    var n := field.GetOr(0) as nat;
    DecimalRoundTrip(n);
    NatToDecimal(n)
  }

  /** The identity line: `login@github`. */
  function Header(login: string): string { login + "@github" }

  /** One dash per byte of the login (`"-".repeat(login.len())`), then
      seven more for "@github". */
  function Underline(login: string): string { Repeat('-', Utf8Length(login)) + "-------" }

  /** One `Label: value` line. */
  function Field(caption: string, value: string): string { caption + ": " + value }

  /** The twelve `Label: value` lines, in the order of the format string. */
  function Fields(u: UserInfo): seq<string>
  {
    [ Field("ID", CountOf(u.id)),
      Field("Name", TextOf(u.name)),
      Field("Company", TextOf(u.company)),
      Field("Blog", TextOf(u.blog)),
      Field("Location", TextOf(u.location)),
      Field("Email", TextOf(u.email)),
      Field("Bio", TextOf(u.bio)),
      Field("Public Repos", CountOf(u.publicRepos)),
      Field("Public Gists", CountOf(u.publicGists)),
      Field("Followers", CountOf(u.followers)),
      Field("Following", CountOf(u.following)),
      Field("Created At", TextOf(u.createdAt)) ]
  }

  /** The indentation before the closing delimiter of the raw string. */
  const Indent: string := "            "

  /** The lines of the text handed to `println!`, in order: an empty
      line, the identity line, the underline, the twelve fields, and the
      indentation left on the literal's last line. */
  function Lines(u: UserInfo): seq<string>
  {
    var login := TextOf(u.login);
    ["", Header(login), Underline(login)] + Fields(u) + [Indent]
  }

  /** The rendered block. It is total: every record renders. */
  function Render(u: UserInfo): string
  {
    JoinLines(Lines(u))
  }

  /** `line` is `prefix` followed by the decimal digits of `n`, with no
      leading zero. */
  predicate ShowsCount(line: string, prefix: string, n: usize)
  {
    && |prefix| < |line| && line[..|prefix|] == prefix
    && (|line| == |prefix| + 1 || line[|prefix|] != '0')
    && (forall i :: |prefix| <= i < |line| ==> IsDigit(line[i]))
    && DecimalValue(line[|prefix|..]) == n as nat
  }

  /** No text field holds a line break. */
  predicate SingleLineFields(u: UserInfo)
  {
    forall s :: s in [TextOf(u.login), TextOf(u.name), TextOf(u.company), TextOf(u.blog),
                      TextOf(u.location), TextOf(u.email), TextOf(u.bio), TextOf(u.createdAt)]
      ==> '\n' !in s
  }

  /** The block opens with an empty line and then the identity line,
      whatever the record holds. */
  lemma RenderBeginsWithHeader(u: UserInfo)
    ensures var head := "\n" + TextOf(u.login) + "@github\n";
      |Render(u)| >= |head| && Render(u)[..|head|] == head
  {
    var ls := Lines(u);
    var login := TextOf(u.login);
    assert JoinLines(ls) == "" + "\n" + JoinLines(ls[1..]);
    assert JoinLines(ls[1..]) == Header(login) + "\n" + JoinLines(ls[2..]);
    var head := "\n" + login + "@github\n";
    assert Render(u) == head + JoinLines(ls[2..]);
  }

  /** When no field holds a line break, splitting the block at its line
      breaks recovers exactly the sixteen lines above. */
  lemma RenderSplitsIntoLines(u: UserInfo)
    requires SingleLineFields(u)
    ensures SplitLines(Render(u)) == Lines(u)
    ensures |SplitLines(Render(u))| == 16
  {
    LinesHaveNoBreaks(u);
    SplitJoin(Lines(u));
  }

  lemma NoBreakInField(caption: string, value: string)
    requires '\n' !in caption && '\n' !in value
    ensures '\n' !in Field(caption, value)
  {
  }

  lemma NoBreakInCount(field: Option<usize>)
    ensures '\n' !in CountOf(field)
  {
  }

  lemma LinesHaveNoBreaks(u: UserInfo)
    requires SingleLineFields(u)
    ensures forall k :: 0 <= k < |Lines(u)| ==> '\n' !in Lines(u)[k]
  {
    var login := TextOf(u.login);
    var texts := [login, TextOf(u.name), TextOf(u.company), TextOf(u.blog),
                  TextOf(u.location), TextOf(u.email), TextOf(u.bio), TextOf(u.createdAt)];
    forall k | 0 <= k < 8 ensures '\n' !in texts[k] { assert texts[k] in texts; }
    NoBreakInCount(u.id);
    NoBreakInCount(u.publicRepos);
    NoBreakInCount(u.publicGists);
    NoBreakInCount(u.followers);
    NoBreakInCount(u.following);
    NoBreakInField("ID", CountOf(u.id));
    NoBreakInField("Name", texts[1]);
    NoBreakInField("Company", texts[2]);
    NoBreakInField("Blog", texts[3]);
    NoBreakInField("Location", texts[4]);
    NoBreakInField("Email", texts[5]);
    NoBreakInField("Bio", texts[6]);
    NoBreakInField("Public Repos", CountOf(u.publicRepos));
    NoBreakInField("Public Gists", CountOf(u.publicGists));
    NoBreakInField("Followers", CountOf(u.followers));
    NoBreakInField("Following", CountOf(u.following));
    NoBreakInField("Created At", texts[7]);
    assert '\n' !in Header(login);
  }

  /** The underline is made of dashes only, and is exactly as long (in
      bytes, the unit of `str::len`) as the identity line above it; for
      an ASCII login that is also its length in characters. */
  lemma UnderlineMatchesHeader(u: UserInfo)
    ensures var login := TextOf(u.login);
      && Lines(u)[1] == Header(login)
      && Lines(u)[2] == Underline(login)
      && (forall i :: 0 <= i < |Underline(login)| ==> Underline(login)[i] == '-')
      && |Underline(login)| == Utf8Length(login) + 7 == Utf8Length(Header(login))
      && (IsAscii(login) ==> |Underline(login)| == |Header(login)|)
      && (u.login.None? ==> Header(login) == "@github" && Underline(login) == "-------")
  {
    var login := TextOf(u.login);
    var d := Underline(login);
    forall i | 0 <= i < |d| ensures d[i] == '-' {
      if i < Utf8Length(login) { assert d[i] == Repeat('-', Utf8Length(login))[i]; }
    }
    Utf8LengthAppend(login, "@github");
    assert Utf8Length("@github") == 7 by {
      assert IsAscii("@github");
    }
  }

  /** An absent field never shows a value: text fields render as the
      empty string and counts as `0`. */
  lemma AbsentFieldsRenderAsDefaults(u: UserInfo)
    ensures u.login.None? ==> Lines(u)[1] == "@github"
    ensures u.id.None? ==> Lines(u)[3] == "ID: 0"
    ensures u.name.None? ==> Lines(u)[4] == "Name: "
    ensures u.company.None? ==> Lines(u)[5] == "Company: "
    ensures u.blog.None? ==> Lines(u)[6] == "Blog: "
    ensures u.location.None? ==> Lines(u)[7] == "Location: "
    ensures u.email.None? ==> Lines(u)[8] == "Email: "
    ensures u.bio.None? ==> Lines(u)[9] == "Bio: "
    ensures u.publicRepos.None? ==> Lines(u)[10] == "Public Repos: 0"
    ensures u.publicGists.None? ==> Lines(u)[11] == "Public Gists: 0"
    ensures u.followers.None? ==> Lines(u)[12] == "Followers: 0"
    ensures u.following.None? ==> Lines(u)[13] == "Following: 0"
    ensures u.createdAt.None? ==> Lines(u)[14] == "Created At: "
  {
    var ls := Lines(u);
    assert CountOf(None) == "0";
    forall s: string ensures s + "" == s { }
  }

  /** A present field is shown as it is: text verbatim after its caption,
      a count as decimal digits that read back as the count. */
  lemma PresentFieldsRenderVerbatim(u: UserInfo)
    ensures u.login.Some? ==> Lines(u)[1] == u.login.value + "@github"
    ensures u.id.Some? ==> ShowsCount(Lines(u)[3], "ID: ", u.id.value)
    ensures u.name.Some? ==> Lines(u)[4] == "Name: " + u.name.value
    ensures u.company.Some? ==> Lines(u)[5] == "Company: " + u.company.value
    ensures u.blog.Some? ==> Lines(u)[6] == "Blog: " + u.blog.value
    ensures u.location.Some? ==> Lines(u)[7] == "Location: " + u.location.value
    ensures u.email.Some? ==> Lines(u)[8] == "Email: " + u.email.value
    ensures u.bio.Some? ==> Lines(u)[9] == "Bio: " + u.bio.value
    ensures u.publicRepos.Some? ==> ShowsCount(Lines(u)[10], "Public Repos: ", u.publicRepos.value)
    ensures u.publicGists.Some? ==> ShowsCount(Lines(u)[11], "Public Gists: ", u.publicGists.value)
    ensures u.followers.Some? ==> ShowsCount(Lines(u)[12], "Followers: ", u.followers.value)
    ensures u.following.Some? ==> ShowsCount(Lines(u)[13], "Following: ", u.following.value)
    ensures u.createdAt.Some? ==> Lines(u)[14] == "Created At: " + u.createdAt.value
  {
    var ls := Lines(u);
    assert ls[3][4..] == CountOf(u.id);
    assert ls[10][14..] == CountOf(u.publicRepos);
    assert ls[11][14..] == CountOf(u.publicGists);
    assert ls[12][11..] == CountOf(u.followers);
    assert ls[13][11..] == CountOf(u.following);
  }

  /** A record holding only a login and an id renders with every other
      field at its default. */
  lemma ExampleSparseRecord()
    ensures var u := UserInfo(Some("octocat"), Some(1), None, None, None, None, None, None,
                              None, None, None, None, None);
      && |Lines(u)| == 16
      && Lines(u)[..4] == ["", "octocat@github", "--------------", "ID: 1"]
      && Lines(u)[4] == "Name: " && Lines(u)[5] == "Company: "
      && Lines(u)[6] == "Blog: " && Lines(u)[7] == "Location: "
      && Lines(u)[8] == "Email: " && Lines(u)[9] == "Bio: "
      && Lines(u)[10] == "Public Repos: 0" && Lines(u)[11] == "Public Gists: 0"
      && Lines(u)[12] == "Followers: 0" && Lines(u)[13] == "Following: 0"
      && Lines(u)[14] == "Created At: "
  {
    var u := UserInfo(Some("octocat"), Some(1), None, None, None, None, None, None,
                      None, None, None, None, None);
    assert IsAscii("octocat");
    assert Underline("octocat") == "--------------" by {
      assert Repeat('-', 7) == "-------";
    }
    assert CountOf(Some(1)) == "1";
    assert Lines(u)[3] == "ID: 1";
    assert Lines(u)[1] == "octocat@github";
    assert Lines(u)[2] == "--------------";
    AbsentFieldsRenderAsDefaults(u);
  }
}
