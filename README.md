# githubfetch, modelled in Dafny

`githubfetch` is a small command-line tool. It takes a GitHub username from
the command line, fetches that account's public profile from the GitHub REST
API, and prints a plain summary: a `login@github` header, an underline, and
twelve `Label: value` lines. It also knows two flags, `-h`/`--help` and
`-V`/`--version`.

This project models the logic of `src/main.rs` that does not touch the
network or the terminal, and proves properties of it:

- `Args`: `parse_args`. The loop becomes the method `ParseArgs`; it is
  proved equal to the declarative specification `Parse`. `Parse` is "each
  flag is set iff some operand spells it; the username is the first
  operand that is non-empty and does not start with `-`". Lemmas cover
  the program name, unknown flags, reordering, and the username never
  starting with `-`.
- `Profile` and `Text`: the `println!` block that renders a `UserInfo`.
  Every field is optional and falls back through `unwrap_or_default`.
  The rendering is the list of lines of the format string, joined by
  newlines. Lemmas cover:
  - the header and the underline lengths;
  - absent fields shown as `""` or `0`, present fields shown verbatim;
  - counts in decimal that read back as the number;
  - splitting the block back into its sixteen lines, when no text field
    holds a line break.
- `Cli`: the body of `main`.
  - `Dispatch` returns the ordered list of actions for a parsed invocation:
    help, version, fetch-and-render, or the missing-username report.
  - `Run` carries the actions out against an abstract fetch that answers
    the request with a decoded record or fails.
  - `RunOutcome` gives the complete transcript of every run.
  - The request URL and the `User-Agent` value are string builders. Each
    string has a round trip back to its input, so distinct usernames give
    distinct URL strings.

Strings are `seq<char>` (Unicode scalar values). Rust's `str::len` counts
UTF-8 bytes, and the underline uses it, so the model measures logins with
`Text.Utf8Length`. The underline therefore matches the header's byte
length for every login, and its character length when the login is ASCII.

Three behaviours of `main.rs` worth noting:
- Help and version do not end the run. When a username is also given,
  the profile is still fetched and printed after the banners.
- An empty argument does not claim the username slot (the
  `username.is_empty()` guard).
- The username is appended to the URL without escaping.

## Model

| member | source | states |
|---|---|---|
| `Args.ParseArgs` | src/main.rs:144-167 | the loop over `args.iter().skip(1)` sets exactly the triple `Parse(args)` |
| `Args.Operands` | src/main.rs:149 | the operands are the arguments after index 0, and none when the list is empty |
| `Args.FirstSubject` | src/main.rs:157-162 | the result is "" iff no token is non-empty and dash-free; otherwise it is such a token, and every token before it is not |
| `Args.FirstSubjectSnoc` | src/main.rs:158-161 | one more token changes the username only when the slot is still empty and the token is non-empty and dash-free |
| `Args.HasFlagSnoc` | src/main.rs:151-156 | one more token sets a flag iff it spells the flag; a set flag stays set |
| `Args.FlagsStartWithDash` | src/main.rs:150-157 | `-h`, `--help`, `-V` and `--version` start with '-', so they never become the username |
| `Args.IgnoresProgramName` | src/main.rs:149 | changing `args[0]` never changes the result |
| `Args.ParseCharacterized` | src/main.rs:149-162 | help (version) iff some argument at index 1 or later is `-h`/`--help` (`-V`/`--version`); the username is "" iff no such argument is non-empty and dash-free, else the first one, which never starts with '-' |
| `Args.Words` | src/main.rs:157 | no kept token starts with '-', and the result is no longer than the input |
| `Args.WordsMembers` | src/main.rs:157 | a token is kept iff it occurs in the input and does not start with '-' |
| `Args.WordsInOrder` | src/main.rs:157 | each non-dash token keeps its place: it sits at the position given by the number of non-dash tokens before it, and later tokens sit further on |
| `Args.WordsAppend` | src/main.rs:157 | dropping dash-led tokens distributes over concatenation |
| `Args.FirstSubjectOfWords` | src/main.rs:157-162 | removing every dash-led token leaves the username unchanged |
| `Args.UsernameDependsOnlyOnWords` | src/main.rs:157-162 | two argument lists with the same non-dash operands, in the same order, give the same username; inserting, removing or reordering dash tokens cannot change it |
| `Args.HasFlagInsert` | src/main.rs:151-157 | inserting a token that does not spell a flag does not change whether the flag is present |
| `Args.HasFlagPermutation` | src/main.rs:151-156 | a flag's presence does not depend on the order of the operands |
| `Args.UnknownFlagIgnored` | src/main.rs:157 | an unrecognised dash token inserted at any position after the program name changes none of help, version and username |
| `Args.FlagOrderIrrelevant` | src/main.rs:149-164 | any rearrangement of the operands that keeps the order of the non-dash ones gives the same triple |
| `Args.ExampleFirstWordWins` | src/main.rs:157-162 | `-V alice bob` gives version and the username alice |
| `Args.ExampleFlagOrder` | src/main.rs:151-156 | `--help -V` and `-V --help` both set both flags and give no username |
| `Args.ExampleDroppedTokens` | src/main.rs:149-162 | `--bogus carol` gives carol; an empty argument before dave leaves the slot to dave; no operands give nothing |
| `Text.NatToDecimal` | src/main.rs:103 | a count prints as a non-empty string of decimal digits without a leading zero, one digit exactly below ten |
| `Text.DecimalRoundTrip` | src/main.rs:103 | reading the printed digits back gives the count |
| `Text.DecimalInjective` | src/main.rs:103 | distinct counts print differently |
| `Text.Utf8Width` | src/main.rs:101 | each character takes 1 to 4 bytes, and exactly one byte iff it is ASCII |
| `Text.Utf8Length` | src/main.rs:101 | a string's byte length lies between its length and four times it, and equals its length iff it is ASCII |
| `Text.Utf8LengthAppend` | src/main.rs:101 | byte length is additive over concatenation |
| `Text.Repeat` | src/main.rs:101 | `"-".repeat(n)` is n dashes |
| `Text.SplitLinesPrefix` | src/main.rs:83-98 | splitting text that starts with a break-free segment attaches that segment to the first line |
| `Text.SplitJoin` | src/main.rs:83-98 | splitting lines joined by newlines gives back the lines, when none of them holds a newline |
| `Profile.TextOf` | src/main.rs:105 | an absent text field becomes "", a present one its value |
| `Profile.CountOf` | src/main.rs:103 | an absent count becomes "0"; a present one becomes non-empty decimal digits without a leading zero that read back as the count |
| `Profile.RenderBeginsWithHeader` | src/main.rs:83-84 | every record renders; the block opens with an empty line and `login@github` |
| `Profile.LinesHaveNoBreaks` | src/main.rs:83-98 | when no text field holds a newline, no rendered line does |
| `Profile.NoBreakInField` | src/main.rs:86-97 | a `Label: value` line holds a newline only if its label or value does |
| `Profile.NoBreakInCount` | src/main.rs:103 | a printed count holds no newline |
| `Profile.RenderSplitsIntoLines` | src/main.rs:82-98 | when no text field holds a newline, the block splits into exactly sixteen lines: blank, header, underline, twelve fields, indentation |
| `Profile.UnderlineMatchesHeader` | src/main.rs:84-101 | the underline is all dashes, with one per byte of the login plus seven; that equals the header's byte length, and its character length for an ASCII login; an absent login gives `@github` over seven dashes |
| `Profile.AbsentFieldsRenderAsDefaults` | src/main.rs:99-125 | each absent field renders as its label followed by "" (text) or `0` (counts) |
| `Profile.PresentFieldsRenderVerbatim` | src/main.rs:99-125 | each present field renders as its label and its value verbatim; counts as non-empty digits without a leading zero that read back as the value |
| `Profile.ExampleSparseRecord` | src/main.rs:82-126 | a record holding only login octocat and id 1 renders its header, fourteen dashes, `ID: 1`, and every other field at its default |
| `Cli.UserUrl` | src/main.rs:57-60 | the URL is the users endpoint followed by exactly the username |
| `Cli.UrlRoundTrip` | src/main.rs:57-60 | the username is recovered from its profile URL |
| `Cli.UrlRoundTripBack` | src/main.rs:57-60 | every URL under the users endpoint is the profile URL of the username it names |
| `Cli.UrlInjective` | src/main.rs:57-60 | distinct usernames give distinct URL strings |
| `Cli.UserAgent` | src/main.rs:65-68 | the User-Agent value is `GitHubFetch/` followed by exactly the version |
| `Cli.ProfileRequest` | src/main.rs:56-68 | the request names the username in its URL; its User-Agent is `GitHubFetch/` followed by the version |
| `Cli.Dispatch` | src/main.rs:48-139 | help iff the help flag; version iff the version flag; a fetch for exactly the username's request iff the username is non-empty; the missing-username report iff no username and neither flag; help before version before the rest, each at most once; never nothing |
| `Cli.PerformAppend` | src/main.rs:48-54 | carrying out actions that fetch nothing, then others, concatenates their outputs |
| `Cli.PerformFlags` | src/main.rs:48-54 | the flag actions print the requested banners and finish |
| `Cli.DispatchOutcome` | src/main.rs:48-139 | the actions for an invocation produce exactly the transcript `Outcome` describes |
| `Cli.RunOutcome` | src/main.rs:44-141 | a run prints the requested banners, help first. It then prints the rendered profile, or panics with the `expect` message when the fetch fails, or, when nothing was asked at all, prints the error on stderr and the hint on stdout; no other output happens |
| `Cli.BannersThen` | src/main.rs:48-54 | banners followed by final-stage outputs keep help before version before the rest |
| `Cli.BannersAndOrder` | src/main.rs:48-56 | the help (version) banner appears iff requested, independently of the other flag and the username, and output stages never go backwards |
| `Cli.ErrorIffNothingRequested` | src/main.rs:127-138 | the error line and the `--help` hint appear iff there is no username and neither flag |
| `Cli.RenderIsNotTheHint` | src/main.rs:82-137 | a rendered profile never coincides with the hint line |
| `Cli.ProfileIffUsernameFetched` | src/main.rs:56-126 | a run panics iff a username was given and its fetch failed. A successful fetch makes the rendered profile the last output. Without a username, the only `Stdout` line other than the banners is the hint |

## Left out

- The HTTP request through `reqwest` (src/main.rs:62-73) is network I/O. `Run` takes the network and the decoder as a function from the request to a decoded record or a failure.
- Parsing the URL string inside the fetch (src/main.rs:64) is not modelled. That step removes dot segments, drops a `#` fragment and percent-encodes some characters, so two distinct URL strings can name the same resource.
- JSON decoding (src/main.rs:75-80) is a foreign library. The model starts from the decoded `UserInfo`.
- The `expect` panics are modelled as an abort carrying the `expect` text. The error value a panic also prints, the panic hook's output and the non-zero exit status are not modelled.
- Colour and bold styling through `colored` only adds terminal escape codes. Labels and the header are rendered plain.
- `env::args()` is I/O. The argument list is the model's input. Its panic on an argument that is not valid Unicode is not modelled, because a `seq<char>` argument cannot express one.
- The banner texts of `print_help` and `print_version` (src/main.rs:169-202) are constant text. They appear as the outputs `HelpText` and `VersionText(version)`.
- The version constant is `env!("CARGO_PKG_VERSION")`, and Cargo.toml is not part of this model. The version is therefore a parameter.
- The trailing newline `println!` adds after the block is not modelled. Each `Stdout` or `Stderr` output stands for one `println!`/`eprintln!` call.
- Pagination and star totals do not exist in `src/main.rs`, so they are not modelled.
- `usize` is a 64-bit newtype. Out-of-range counts are rejected by the decoder, which is outside the model.
