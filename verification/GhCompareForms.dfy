/** The forms in which `hunk gh compare` takes a repository and delegated arguments, and which refs it refuses. */
module GhCompareForms {
  import opened Text
  import opened Wrappers
  import opened GhCompare

  // ---- Arguments ----

  /** The two ways of naming a repository. */
  function RepoFlag(joined: bool, repository: string): seq<string> {
    if joined then ["--repo=" + repository] else ["--repo", repository]
  }

  /** A range with a repository before it or after it. */
  function Owned(range: string, flag: seq<string>, flagFirst: bool): seq<string> {
    if flagFirst then flag + [range] else [range] + flag
  }

  /** Arguments after `--` are delegated. */
  function Delegating(owned: seq<string>, delegated: Option<seq<string>>): seq<string> {
    owned + (if delegated.Some? then ["--"] + delegated.value else [])
  }

  lemma {:induction false} SeparatorAfter(owned: seq<string>, delegated: Option<seq<string>>)
    requires "--" !in owned
    ensures var args := Delegating(owned, delegated);
            && Separator(args) == |owned| && args[..|owned|] == owned
            && (if |owned| < |args| then args[|owned| + 1..] else []) == delegated.GetOr([])
  {
    var args := Delegating(owned, delegated);
    assert args[..|owned|] == owned;
    forall j | 0 <= j < |owned| ensures args[j] != "--" { assert args[j] == owned[j] && owned[j] in owned; }
    assert delegated.Some? ==> args[|owned|] == "--" && args[|owned| + 1..] == delegated.value;
  }

  /** A text that is taken for the range. */
  predicate RangeLike(range: string) { range != "" && !StartsWith(range, "-") }

  lemma {:induction false} DashStarts(text: string)
    ensures StartsWith(text, "-") <==> text != "" && text[0] == '-'
    ensures StartsWith(text, "--") ==> StartsWith(text, "-")
    ensures StartsWith(text, "--repo=") ==> StartsWith(text, "-")
  {
  }

  lemma {:induction false} RangeTaken(range: string, more: seq<string>, so: Options)
    requires RangeLike(range) && so.range.None?
    ensures ReadArguments([range] + more, so) == ReadArguments(more, so.(range := Some(range)))
  {
    DashStarts(range);
    assert ([range] + more)[1..] == more;
  }

  lemma {:induction false} RepoTaken(joined: bool, repository: string, more: seq<string>, so: Options)
    requires repository != "" && (!joined ==> !StartsWith(repository, "--")) && so.repository.None?
    ensures ReadArguments(RepoFlag(joined, repository) + more, so)
            == ReadArguments(more, so.(repository := Some(repository)))
  {
    var args := RepoFlag(joined, repository) + more;
    if joined {
      var flag := "--repo=" + repository;
      assert flag[..7] == "--repo=" && flag[7..] == repository && flag != "--repo" && args[1..] == more;
    } else {
      assert args[0] == "--repo" && args[1] == repository && args[2..] == more;
    }
  }

  lemma {:induction false} OwnedReads(range: string, joined: bool, repository: string, flagFirst: bool)
    requires RangeLike(range) && repository != "" && (!joined ==> !StartsWith(repository, "--"))
    ensures ReadArguments(Owned(range, RepoFlag(joined, repository), flagFirst), Options(None, None))
            == Ok(Options(Some(range), Some(repository)))
  {
    var flag, none := RepoFlag(joined, repository), Options(None, None);
    if flagFirst {
      RepoTaken(joined, repository, [range], none);
      RangeTaken(range, [], none.(repository := Some(repository)));
      assert [range] + [] == [range];
    } else {
      RangeTaken(range, flag, none);
      RepoTaken(joined, repository, [], none.(range := Some(range)));
      assert flag + [] == flag;
    }
  }

  /** No argument asks for help or ends the owned ones. */
  predicate Plain(args: seq<string>) { "--" !in args && "--help" !in args && "-h" !in args }

  lemma {:induction false} OwnedIsPlain(range: string, joined: bool, repository: string, flagFirst: bool)
    requires RangeLike(range) && '/' in repository
    ensures Plain(Owned(range, RepoFlag(joined, repository), flagFirst))
  {
    DashStarts(range);
    var flag := "--repo=" + repository;
    assert flag[6] == '=';
  }

  lemma {:induction false} PlainParse(
    supportedHost: string -> bool, owned: seq<string>, delegated: Option<seq<string>>, range: string,
    repository: Option<string>)
    requires Plain(owned) && ReadArguments(owned, Options(None, None)) == Ok(Options(Some(range), repository))
    requires range != ""
    ensures ParseCompare(supportedHost, Delegating(owned, delegated))
            == match ReadRange(range)
               case Err(e) => Err(e)
               case Ok((base, head)) =>
                 if repository.Some? && !ValidRepository(supportedHost, repository.value) then Err(InvalidRepository)
                 else Ok(Invocation(base, head, repository, delegated.GetOr([]), false))
  {
    SeparatorAfter(owned, delegated);
  }

  lemma {:induction false} RangeIsLike(base: string, head: string)
    requires ValidGitRef(base) && !StartsWith(base, "-")
    ensures RangeLike(base + DOTS + head)
  {
    DashStarts(base);
    DashStarts(base + DOTS + head);
    assert (base + DOTS + head)[0] == base[0];
  }

  lemma {:induction false} ValidHasSlash(supportedHost: string -> bool, repository: string)
    requires ValidRepository(supportedHost, repository)
    ensures repository != "" && '/' in repository
  {
    if '/' !in repository { SplitNone(repository, '/'); }
  }

  /**
   * A valid comparison with a repository named either way, before the range or after it, and with any delegated
   * arguments: all four come out.
   */
  lemma {:induction false} CompareInRepository(
    supportedHost: string -> bool, base: string, head: string, joined: bool, repository: string, flagFirst: bool,
    delegated: Option<seq<string>>)
    requires ValidGitRef(base) && ValidGitRef(head) && !StartsWith(base, "-")
    requires ValidRepository(supportedHost, repository) && (!joined ==> !StartsWith(repository, "--"))
    ensures ParseCompare(supportedHost,
                         Delegating(Owned(base + DOTS + head, RepoFlag(joined, repository), flagFirst), delegated))
            == Ok(Invocation(base, head, Some(repository), delegated.GetOr([]), false))
  {
    var range := base + DOTS + head;
    RangeIsLike(base, head);
    RangeReads(base, head);
    ValidHasSlash(supportedHost, repository);
    OwnedReads(range, joined, repository, flagFirst);
    OwnedIsPlain(range, joined, repository, flagFirst);
    PlainParse(supportedHost, Owned(range, RepoFlag(joined, repository), flagFirst), delegated, range, Some(repository));
  }

  /** The same without a repository. */
  lemma {:induction false} CompareDelegates(
    supportedHost: string -> bool, base: string, head: string, delegated: Option<seq<string>>)
    requires ValidGitRef(base) && ValidGitRef(head) && !StartsWith(base, "-")
    ensures ParseCompare(supportedHost, Delegating([base + DOTS + head], delegated))
            == Ok(Invocation(base, head, None, delegated.GetOr([]), false))
  {
    var range := base + DOTS + head;
    RangeIsLike(base, head);
    RangeReads(base, head);
    DashStarts(range);
    RangeTaken(range, [], Options(None, None));
    assert [range] + [] == [range];
    PlainParse(supportedHost, [range], delegated, range, None);
  }

  /** A repository that is not valid refuses the comparison, however it is named. */
  lemma {:induction false} BadRepositoryRefused(
    supportedHost: string -> bool, base: string, head: string, joined: bool, repository: string, flagFirst: bool,
    delegated: Option<seq<string>>)
    requires ValidGitRef(base) && ValidGitRef(head) && !StartsWith(base, "-")
    requires !ValidRepository(supportedHost, repository) && '/' in repository && !StartsWith(repository, "--")
    ensures ParseCompare(supportedHost,
                         Delegating(Owned(base + DOTS + head, RepoFlag(joined, repository), flagFirst), delegated))
            == Err(InvalidRepository)
  {
    var range := base + DOTS + head;
    RangeIsLike(base, head);
    RangeReads(base, head);
    OwnedReads(range, joined, repository, flagFirst);
    OwnedIsPlain(range, joined, repository, flagFirst);
    PlainParse(supportedHost, Owned(range, RepoFlag(joined, repository), flagFirst), delegated, range, Some(repository));
  }

  /** Help, asked for anywhere before `--`, is all that is answered. */
  lemma {:induction false} HelpWins(supportedHost: string -> bool, owned: seq<string>, delegated: Option<seq<string>>)
    requires "--" !in owned && ("--help" in owned || "-h" in owned)
    ensures ParseCompare(supportedHost, Delegating(owned, delegated))
            == Ok(Invocation("base", "head", None, delegated.GetOr([]), true))
  {
    var args := Delegating(owned, delegated);
    SeparatorAfter(owned, delegated);
    HelpRead(supportedHost, args, |owned|, owned, delegated.GetOr([]));
  }

  lemma {:induction false} HelpRead(
    supportedHost: string -> bool, args: seq<string>, i: nat, owned: seq<string>, patchArgs: seq<string>)
    requires i == Separator(args) && owned == args[..i] && patchArgs == if i < |args| then args[i + 1..] else []
    requires "--help" in owned || "-h" in owned
    ensures ParseCompare(supportedHost, args) == Ok(Invocation("base", "head", None, patchArgs, true))
  {
  }

  // ---- Refs ----

  lemma {:induction false} IncludesHere(a: string, part: string, b: string)
    ensures Includes(a + part + b, part)
  {
    var text := a + part + b;
    if a == "" {
      assert text[..|part|] == part;
    } else {
      assert text[1..] == a[1..] + part + b;
      IncludesHere(a[1..], part, b);
    }
  }

  /** No ref holds two slashes or two dots in a row, or `@{`, whatever stands around them. */
  lemma {:induction false} PairsRefused(a: string, b: string)
    ensures !ValidGitRef(a + "//" + b) && !ValidGitRef(a + ".." + b) && !ValidGitRef(a + "@{" + b)
  {
    IncludesHere(a, "//", b);
    IncludesHere(a, "..", b);
    IncludesHere(a, "@{", b);
  }

  /** Or any of these characters, or a control character. */
  predicate Forbidden(c: char) {
    c <= ' ' || c == '~' || c == '^' || c == ':' || c == '?' || c == '*' || c == '[' || c == '\\'
    || '\U{7f}' <= c <= '\U{9f}'
  }

  lemma {:induction false} CharactersRefused(a: string, c: char, b: string)
    requires Forbidden(c)
    ensures !ValidGitRef(a + [c] + b)
  {
    var text := a + [c] + b;
    assert text[|a|] == c && c in text;
    if c > ' ' && c <= '~' { assert c in " ~^:?*[\\"; }
    if c == ' ' { assert " ~^:?*[\\"[0] == ' '; }
  }

  /** Nor does one start or end with a slash, end with a dot, or consist of `@` alone or of nothing. */
  lemma {:induction false} EndsRefused(a: string)
    ensures !ValidGitRef("/" + a) && !ValidGitRef(a + "/") && !ValidGitRef(a + ".")
    ensures !ValidGitRef("") && !ValidGitRef("@")
  {
    assert ("/" + a)[..1] == "/";
    assert (a + "/")[|a|..] == "/" && (a + ".")[|a|..] == ".";
  }

  /** No part of a ref between slashes starts with a dot or ends with `.lock`. */
  lemma {:induction false} PartsRefused(before: seq<string>, part: string, after: seq<string>)
    requires (forall other <- before + [part] + after :: '/' !in other) && (StartsWith(part, ".") || EndsWith(part, ".lock"))
    ensures !ValidGitRef(Join(before + [part] + after, "/"))
  {
    var parts := before + [part] + after;
    SplitJoin(parts, '/');
    assert parts[|before|] == part && part in parts;
  }

  /** No ref takes more than 1024 bytes of UTF-8. */
  lemma {:induction false} LongRefRefused(value: string)
    requires ByteLength(value) > 1024
    ensures !ValidGitRef(value)
  {
  }

  /** The encoding takes a byte for each ASCII character and two to four for each other one. */
  lemma {:induction false} BytesOfConcat(a: string, c: char, b: string)
    ensures ByteLength(a + [c] + b) == ByteLength(a) + ByteLength(b)
                                       + (if c < '\U{80}' then 1 else if c < '\U{800}' then 2
                                          else if c < '\U{10000}' then 3 else 4)
  {
    var text := a + [c] + b;
    if a == "" {
      assert text[1..] == b && text[0] == c;
    } else {
      assert text[1..] == a[1..] + [c] + b && text[0] == a[0];
      BytesOfConcat(a[1..], c, b);
    }
  }

  /** Names of letters, digits, dashes and underscores, one or more of them with slashes between, are refs. */
  predicate NameChar(c: char) {
    'a' <= c <= 'z' || 'A' <= c <= 'Z' || '0' <= c <= '9' || c == '-' || c == '_'
  }

  predicate Name(s: string) { s != "" && forall c <- s :: NameChar(c) }

  lemma {:induction false} PlainNameValid(names: seq<string>, text: string)
    requires names != [] && (forall name <- names :: Name(name)) && text == Join(names, "/") && |text| <= 1024
    ensures ValidGitRef(text)
  {
    NamesHold(names, text);
    OneByteEach(text);
    NoPair(text, "..", '.');
    NoPair(text, "@{", '@');
    NoDoubleSlash(names, text);
    PlainParts(names, text);
    PlainText(text);
  }

  lemma {:induction false} PlainParts(names: seq<string>, text: string)
    requires names != [] && (forall name <- names :: Name(name)) && text == Join(names, "/")
    ensures forall part <- Split(text, '/') :: !StartsWith(part, ".") && !EndsWith(part, ".lock")
  {
    forall name <- names ensures '/' !in name { assert Name(name); }
    SplitJoin(names, '/');
    forall part <- Split(text, '/') ensures !StartsWith(part, ".") && !EndsWith(part, ".lock") {
      assert Name(part);
      NoDotStart(part);
    }
  }

  /** The conditions on single characters and ends. */
  lemma {:induction false} PlainText(text: string)
    requires text != "" && NameChar(text[0]) && NameChar(text[|text| - 1])
    requires forall c <- text :: NameChar(c) || c == '/'
    ensures text != "@" && !StartsWith(text, "/") && !EndsWith(text, "/") && !EndsWith(text, ".")
    ensures !HasControlCharacter(text) && forall c <- text :: c !in " ~^:?*[\\"
  {
    assert text[|text| - 1..] == [text[|text| - 1]];
  }

  lemma {:induction false} NamesHold(names: seq<string>, text: string)
    requires names != [] && (forall name <- names :: Name(name)) && text == Join(names, "/")
    ensures text != "" && NameChar(text[0]) && NameChar(text[|text| - 1])
    ensures forall c <- text :: NameChar(c) || c == '/'
  {
    assert names[0] in names;
    if |names| == 1 {
      assert text[0] in names[0] && text[|text| - 1] in names[0];
    } else {
      var rest := Join(names[1..], "/");
      assert forall name <- names[1..] :: name in names;
      NamesHold(names[1..], rest);
      assert text == names[0] + "/" + rest;
      assert text[0] == names[0][0] && text[|text| - 1] == rest[|rest| - 1] && names[0][0] in names[0];
    }
  }

  lemma {:induction false} OneByteEach(text: string)
    requires forall c <- text :: NameChar(c) || c == '/'
    ensures ByteLength(text) == |text|
  {
    if text == "" {
    } else {
      assert text[0] in text && forall c <- text[1..] :: c in text;
      OneByteEach(text[1..]);
    }
  }

  lemma {:induction false} NoPair(text: string, pair: string, c: char)
    requires (forall d <- text :: NameChar(d) || d == '/') && pair != "" && pair[0] == c && !NameChar(c) && c != '/'
    ensures !Includes(text, pair)
    decreases |text|
  {
    if text == "" {
      assert !StartsWith(text, pair);
    } else {
      assert text[0] in text && forall d <- text[1..] :: d in text;
      NoPair(text[1..], pair, c);
      assert text[0] != c;
    }
  }

  lemma {:induction false} NoDotStart(part: string)
    requires Name(part)
    ensures !StartsWith(part, ".") && !EndsWith(part, ".lock")
  {
    assert part[0] in part;
    if |part| >= 5 {
      assert part[|part| - 5] in part && part[|part| - 5..][0] == part[|part| - 5];
    }
  }

  lemma {:induction false} NoDoubleSlash(names: seq<string>, text: string)
    requires names != [] && (forall name <- names :: Name(name)) && text == Join(names, "/")
    ensures !Includes(text, "//")
    decreases names
  {
    assert names[0] in names;
    if |names| == 1 {
      NoSlash(text);
    } else {
      var rest := Join(names[1..], "/");
      assert forall name <- names[1..] :: name in names;
      NoDoubleSlash(names[1..], rest);
      NamesHold(names[1..], rest);
      SlashAfter(names[0], rest, text);
    }
  }

  lemma {:induction false} NoSlash(name: string)
    requires forall c <- name :: NameChar(c)
    ensures !Includes(name, "//")
  {
    if name == "" {
    } else {
      assert name[0] in name && forall c <- name[1..] :: c in name;
      NoSlash(name[1..]);
    }
  }

  lemma {:induction false} SlashAfter(name: string, rest: string, text: string)
    requires (forall c <- name :: NameChar(c)) && rest != "" && rest[0] != '/' && !Includes(rest, "//")
    requires text == name + "/" + rest
    ensures !Includes(text, "//")
  {
    if name == "" {
      assert text[1..] == rest && text[1] == rest[0];
    } else {
      assert name[0] in name && text[0] == name[0] && forall c <- name[1..] :: c in name;
      assert text[1..] == name[1..] + "/" + rest;
      SlashAfter(name[1..], rest, text[1..]);
    }
  }

  // ---- Repositories ----

  /** An owner or a repository: letters, digits, dots, dashes and underscores, and neither `.` nor `..`. */
  predicate Part(s: string) {
    s != "" && s != "." && s != ".." && forall c <- s :: NameChar(c) || c == '.'
  }

  /** `OWNER/REPO`, or the same after a supported host. */
  ghost predicate Located(supportedHost: string -> bool, value: string, owner: string, repo: string, host: Option<string>) {
    && Part(owner) && Part(repo)
    && (host.Some? ==> '/' !in host.value && supportedHost(host.value) && !HasControlCharacter(host.value))
    && value == (if host.Some? then host.value + "/" else "") + owner + "/" + repo
  }

  lemma {:induction false} PartsAreParts(part: string)
    ensures RepositoryPart(part) <==> Part(part)
    ensures Part(part) ==> '/' !in part && !HasControlCharacter(part)
  {
  }

  /** Exactly which repositories are accepted. */
  lemma {:induction false} RepositoryExactly(supportedHost: string -> bool, value: string)
    ensures ValidRepository(supportedHost, value)
            <==> exists owner, repo, host :: Located(supportedHost, value, owner, repo, host)
  {
    if ValidRepository(supportedHost, value) { RepositoryParts(supportedHost, value); }
    if owner, repo, host :| Located(supportedHost, value, owner, repo, host) {
      RepositoryReads(supportedHost, value, owner, repo, host);
    }
  }

  lemma {:induction false} RepositoryParts(supportedHost: string -> bool, value: string)
    requires ValidRepository(supportedHost, value)
    ensures exists owner, repo, host :: Located(supportedHost, value, owner, repo, host)
  {
    var parts := Split(value, '/');
    var owner, repo := parts[|parts| - 2], parts[|parts| - 1];
    PartsAreParts(owner);
    PartsAreParts(repo);
    JoinSplit(value, '/');
    SplitPieces(value, '/');
    if |parts| == 2 {
      assert parts == [owner, repo];
      JoinTwo(owner, repo, value);
      assert Located(supportedHost, value, owner, repo, None);
    } else {
      assert parts == [parts[0], owner, repo];
      JoinThree(parts[0], owner, repo, value);
      assert parts[0] in parts;
      assert forall c <- parts[0] :: c in value;
      assert Located(supportedHost, value, owner, repo, Some(parts[0]));
    }
  }

  lemma {:induction false} JoinTwo(a: string, b: string, text: string)
    requires text == Join([a, b], "/")
    ensures text == "" + a + "/" + b
  {
    assert [a, b][1..] == [b];
  }

  lemma {:induction false} JoinThree(a: string, b: string, c: string, text: string)
    requires text == Join([a, b, c], "/")
    ensures text == a + "/" + b + "/" + c
  {
    JoinCons(a, [b, c], "/");
    JoinCons(b, [c], "/");
    assert [a, b, c] == [a] + [b, c] && [b, c] == [b] + [c];
    assert a + "/" + (b + "/" + c) == a + "/" + b + "/" + c;
  }

  lemma {:induction false} RepositoryReads(
    supportedHost: string -> bool, value: string, owner: string, repo: string, host: Option<string>)
    requires Located(supportedHost, value, owner, repo, host)
    ensures ValidRepository(supportedHost, value)
  {
    var pair := owner + ['/'] + repo;
    PartsAreParts(owner);
    PartsAreParts(repo);
    PairSplits(owner, repo, pair);
    if host.Some? {
      HostedSplits(host.value, owner, repo, pair, value);
      PartsValid(supportedHost, value, [host.value, owner, repo]);
    } else {
      assert value == pair;
      PartsValid(supportedHost, value, [owner, repo]);
    }
  }

  lemma {:induction false} PairSplits(owner: string, repo: string, pair: string)
    requires Part(owner) && Part(repo) && pair == owner + ['/'] + repo
    ensures Split(pair, '/') == [owner, repo] && !HasControlCharacter(pair)
  {
    SplitNone(repo, '/');
    SplitFirst(owner, '/', repo);
    forall c <- pair ensures !ControlCharacter(c) { assert c == '/' || c in owner || c in repo; }
  }

  lemma {:induction false} HostedSplits(host: string, owner: string, repo: string, pair: string, value: string)
    requires '/' !in host && !HasControlCharacter(host) && !HasControlCharacter(pair)
    requires Split(pair, '/') == [owner, repo] && pair == owner + ['/'] + repo
    requires value == host + "/" + owner + "/" + repo
    ensures Split(value, '/') == [host, owner, repo] && !HasControlCharacter(value)
  {
    assert value == host + ['/'] + pair;
    SplitFirst(host, '/', pair);
    forall c <- value ensures !ControlCharacter(c) { assert c in host || c == '/' || c in pair; }
  }

  lemma {:induction false} PartsValid(supportedHost: string -> bool, value: string, parts: seq<string>)
    requires parts == Split(value, '/') && !HasControlCharacter(value)
    requires |parts| == 2 || (|parts| == 3 && supportedHost(parts[0]))
    requires RepositoryPart(parts[|parts| - 2]) && RepositoryPart(parts[|parts| - 1])
    ensures ValidRepository(supportedHost, value)
  {
  }
}
