/** Parsing `hunk gh compare base...head`. */
module GhCompare {
  import opened Text
  import opened Wrappers

  const DOTS := "..."

  datatype Error =
    | RepeatedRepo | MissingRepo | UnknownOption | ManyRanges | NoRange | MalformedRange | InvalidRef
    | InvalidRepository

  /** `s.includes(part)` */
  predicate Includes(s: string, part: string) {
    StartsWith(s, part) || (s != "" && Includes(s[1..], part))
  }

  predicate ControlCharacter(c: char) { c <= '\U{1f}' || '\U{7f}' <= c <= '\U{9f}' }

  predicate HasControlCharacter(s: string) { exists c <- s :: ControlCharacter(c) }

  /** Bytes of the UTF-8 encoding. */
  function ByteLength(s: string): nat {
    if s == "" then 0
    else
      ByteLength(s[1..])
      + (if s[0] < '\U{80}' then 1 else if s[0] < '\U{800}' then 2 else if s[0] < '\U{10000}' then 3 else 4)
  }

  predicate ValidGitRef(value: string) {
    && ByteLength(value) <= 1024
    && value != "" && value != "@"
    && !StartsWith(value, "/") && !EndsWith(value, "/") && !EndsWith(value, ".")
    && !Includes(value, "//") && !Includes(value, "..") && !Includes(value, "@{")
    && !HasControlCharacter(value)
    && (forall c <- value :: c !in " ~^:?*[\\")
    && (forall part <- Split(value, '/') :: !StartsWith(part, ".") && !EndsWith(part, ".lock"))
  }

  predicate RepositoryPart(part: string) {
    && part != "" && part != "." && part != ".."
    && forall c <- part :: 'A' <= c <= 'Z' || 'a' <= c <= 'z' || '0' <= c <= '9' || c == '_' || c == '.' || c == '-'
  }

  /** `[HOST/]OWNER/REPO`; which hosts are supported is a parameter. */
  predicate ValidRepository(supportedHost: string -> bool, value: string) {
    var parts := Split(value, '/');
    && !HasControlCharacter(value)
    && (|parts| == 2 || (|parts| == 3 && supportedHost(parts[0])))
    && RepositoryPart(parts[|parts| - 2]) && RepositoryPart(parts[|parts| - 1])
  }

  datatype Invocation = Invocation(base: string, head: string, repository: Option<string>, patchArgs: seq<string>, help: bool)

  /** `text.split("...")`: cut at each occurrence, leftmost first, without overlap. */
  function SplitDots(text: string): (parts: seq<string>)
    ensures |parts| >= 1
    decreases |text|
  {
    if StartsWith(text, DOTS) then [""] + SplitDots(text[3..])
    else if text == "" then [""]
    else
      var rest := SplitDots(text[1..]);
      [[text[0]] + rest[0]] + rest[1..]
  }

  /** The index of the first `--`, or the number of arguments. */
  function Separator(args: seq<string>): (i: nat)
    ensures i <= |args|
    ensures i < |args| ==> args[i] == "--"
    ensures forall j | 0 <= j < i :: args[j] != "--"
  {
    if args == [] || args[0] == "--" then 0 else 1 + Separator(args[1..])
  }

  datatype Options = Options(range: Option<string>, repository: Option<string>)

  /** The argument loop: `--repo` takes the next argument, and one other argument is the range. */
  function ReadArguments(args: seq<string>, so: Options): Result<Options, Error>
    decreases |args|
  {
    if args == [] then Ok(so)
    else if args[0] == "--repo" then
      if so.repository.Some? then Err(RepeatedRepo)
      else if |args| < 2 || args[1] == "" || StartsWith(args[1], "--") then Err(MissingRepo)
      else ReadArguments(args[2..], so.(repository := Some(args[1])))
    else if StartsWith(args[0], "--repo=") then
      if so.repository.Some? then Err(RepeatedRepo)
      else if args[0][7..] == "" then Err(MissingRepo)
      else ReadArguments(args[1..], so.(repository := Some(args[0][7..])))
    else if StartsWith(args[0], "-") then Err(UnknownOption)
    else if so.range.Some? then Err(ManyRanges)
    else ReadArguments(args[1..], so.(range := Some(args[0])))
  }

  /** The pair a range stands for. */
  function ReadRange(range: string): Result<(string, string), Error> {
    var parts := SplitDots(range);
    if |parts| != 2 || parts[0] == "" || parts[1] == "" then Err(MalformedRange)
    else if !ValidGitRef(parts[0]) || !ValidGitRef(parts[1]) then Err(InvalidRef)
    else Ok((parts[0], parts[1]))
  }

  function ParseCompare(supportedHost: string -> bool, args: seq<string>): Result<Invocation, Error> {
    var separator := Separator(args);
    var owned := args[..separator];
    var patchArgs := if separator < |args| then args[separator + 1..] else [];
    if "--help" in owned || "-h" in owned then Ok(Invocation("base", "head", None, patchArgs, true))
    else
      match ReadArguments(owned, Options(None, None))
      case Err(e) => Err(e)
      case Ok(so) =>
        if so.range.GetOr("") == "" then Err(NoRange)
        else
          match ReadRange(so.range.value)
          case Err(e) => Err(e)
          case Ok((base, head)) =>
            if so.repository.Some? && !ValidRepository(supportedHost, so.repository.value) then Err(InvalidRepository)
            else Ok(Invocation(base, head, so.repository, patchArgs, false))
  }

  /** `parseGitHubCompareInvocation` as written. */
  method ParseGitHubCompareInvocation(supportedHost: string -> bool, args: seq<string>) returns (r: Result<Invocation, Error>)
    ensures r == ParseCompare(supportedHost, args)
  {
    var separator := Separator(args);
    var ownedArgs := args[..separator];
    var patchArgs := if separator < |args| then args[separator + 1..] else [];
    if "--help" in ownedArgs || "-h" in ownedArgs { return Ok(Invocation("base", "head", None, patchArgs, true)); }

    var range: Option<string> := None;
    var explicitRepository: Option<string> := None;
    var index := 0;
    ghost var whole := ReadArguments(ownedArgs, Options(None, None));
    assert ownedArgs[0..] == ownedArgs;
    while index < |ownedArgs|
      invariant 0 <= index <= |ownedArgs|
      invariant whole == ReadArguments(ownedArgs[index..], Options(range, explicitRepository))
    {
      var token := ownedArgs[index];
      assert ownedArgs[index..][0] == token && ownedArgs[index..][1..] == ownedArgs[index + 1..];
      if token == "--repo" {
        if explicitRepository.Some? { return Err(RepeatedRepo); }
        if index + 1 >= |ownedArgs| || ownedArgs[index + 1] == "" || StartsWith(ownedArgs[index + 1], "--") {
          return Err(MissingRepo);
        }
        assert ownedArgs[index..][1] == ownedArgs[index + 1] && ownedArgs[index..][2..] == ownedArgs[index + 2..];
        explicitRepository := Some(ownedArgs[index + 1]);
        index := index + 2;
        continue;
      }
      if StartsWith(token, "--repo=") {
        if explicitRepository.Some? { return Err(RepeatedRepo); }
        if token[7..] == "" { return Err(MissingRepo); }
        explicitRepository := Some(token[7..]);
        index := index + 1;
        continue;
      }
      if StartsWith(token, "-") { return Err(UnknownOption); }
      if range.Some? { return Err(ManyRanges); }
      range := Some(token);
      index := index + 1;
    }

    if range.GetOr("") == "" { return Err(NoRange); }
    var pair := ReadRange(range.value);
    if pair.Err? { return Err(pair.error); }
    if explicitRepository.Some? && !ValidRepository(supportedHost, explicitRepository.value) {
      return Err(InvalidRepository);
    }
    r := Ok(Invocation(pair.value.0, pair.value.1, explicitRepository, patchArgs, false));
  }

  // ---- Valid refs make a range decodable ----

  /** `parts.join("...")` */
  lemma {:induction false} SplitDotsRejoins(text: string)
    ensures Join(SplitDots(text), DOTS) == text
    decreases |text|
  {
    if StartsWith(text, DOTS) {
      SplitDotsRejoins(text[3..]);
      JoinCons("", SplitDots(text[3..]), DOTS);
      assert text == DOTS + text[3..];
    } else if text != "" {
      SplitDotsRejoins(text[1..]);
      JoinGrow(text[0], SplitDots(text[1..]), DOTS, text[1..]);
      assert text == [text[0]] + text[1..];
    }
  }

  /** A text without two dots in a row is one piece. */
  lemma {:induction false} NoDotsIsWhole(text: string)
    requires !Includes(text, "..")
    ensures SplitDots(text) == [text]
    decreases |text|
  {
    assert StartsWith(text, DOTS) ==> StartsWith(text, "..");
    if text == "" {
    } else {
      NoDotsIsWhole(text[1..]);
      assert [text[0]] + text[1..] == text;
    }
  }

  predicate TwoDots(s: string) { |s| >= 2 && s[0] == '.' && s[1] == '.' }

  lemma {:induction false} TwoDotsStart(s: string)
    ensures StartsWith(s, "..") <==> TwoDots(s)
    ensures StartsWith(s, DOTS) ==> TwoDots(s)
  {
  }

  lemma {:induction false} NoDotsAhead(base: string, head: string, range: string)
    requires range == base + DOTS + head && base != "" && !StartsWith(base, "..") && base[|base| - 1] != '.'
    ensures !StartsWith(range, DOTS)
  {
    TwoDotsStart(base);
    TwoDotsStart(range);
    assert range[0] == base[0] && (|base| >= 2 ==> range[1] == base[1]);
  }

  /** A base that neither holds two dots in a row nor ends with a dot is cut off exactly. */
  lemma {:induction false} BaseComesOff(base: string, head: string, range: string)
    requires !Includes(base, "..") && (base != "" ==> base[|base| - 1] != '.') && range == base + DOTS + head
    ensures SplitDots(range) == [base] + SplitDots(head)
    decreases |base|
  {
    if base == "" {
      assert range == DOTS + head && range[3..] == head;
    } else {
      NoDotsAhead(base, head, range);
      assert range[1..] == base[1..] + DOTS + head;
      BaseComesOff(base[1..], head, range[1..]);
      PieceGrows(base, SplitDots(head), SplitDots(range[1..]));
    }
  }

  lemma {:induction false} PieceGrows(base: string, more: seq<string>, parts: seq<string>)
    requires base != "" && parts == [base[1..]] + more
    ensures [[base[0]] + parts[0]] + parts[1..] == [base] + more
  {
    assert [base[0]] + base[1..] == base;
  }

  lemma {:induction false} LoneArgument(range: string, so: Options)
    requires range != "--repo" && so == Options(None, None)
    ensures ReadArguments([range], so) ==
            if StartsWith(range, "--repo=") then
              if range[7..] == "" then Err(MissingRepo) else Ok(Options(None, Some(range[7..])))
            else if StartsWith(range, "-") then Err(UnknownOption)
            else Ok(Options(Some(range), None))
  {
  }

  lemma {:induction false} LoneParse(supportedHost: string -> bool, range: string)
    requires range != "" && range != "--" && range != "--help" && range != "-h" && range != "--repo"
    ensures !StartsWith(range, "-") ==>
              ParseCompare(supportedHost, [range])
              == match ReadRange(range)
                 case Err(e) => Err(e)
                 case Ok((base, head)) => Ok(Invocation(base, head, None, [], false))
    ensures StartsWith(range, "-") ==> ParseCompare(supportedHost, [range]).Err?
  {
    assert [range][..1] == [range] && Separator([range]) == 1;
    LoneArgument(range, Options(None, None));
    assert StartsWith(range, "--repo=") ==> range[0] == '-';
  }

  /**
   * For any two texts, `base...head` parses as that pair exactly when both are valid refs and the base does not
   * start with a dash.
   */
  lemma {:induction false} CompareRoundTrip(supportedHost: string -> bool, base: string, head: string)
    ensures ParseCompare(supportedHost, [base + DOTS + head]) == Ok(Invocation(base, head, None, [], false))
            <==> ValidGitRef(base) && ValidGitRef(head) && !StartsWith(base, "-")
  {
    var range := base + DOTS + head;
    RangeIsNoFlag(base, head);
    LoneParse(supportedHost, range);
    RangeReads(base, head);
    assert base != "" ==> base[0] == range[0];
    assert base == "" ==> !ValidGitRef(base) && range[0] == '.';
  }

  /** A range of two valid refs reads as that pair, and only valid refs are ever read. */
  lemma {:induction false} RangeReads(base: string, head: string)
    ensures ReadRange(base + DOTS + head) == Ok((base, head)) <==> ValidGitRef(base) && ValidGitRef(head)
  {
    if ValidGitRef(base) && ValidGitRef(head) {
      assert base[|base| - 1] == '.' ==> EndsWith(base, ".");
      BaseComesOff(base, head, base + DOTS + head);
      NoDotsIsWhole(head);
    }
  }

  lemma {:induction false} RangeIsNoFlag(base: string, head: string)
    ensures var range := base + DOTS + head;
            range != "" && range != "--" && range != "--help" && range != "-h" && range != "--repo"
  {
    var range := base + DOTS + head;
    assert range[|base|] == '.';
    assert forall c <- "--help" :: c != '.';
    assert forall c <- "--repo" :: c != '.';
    assert range[|base|] in range;
  }

  lemma {:induction false} RangeIsAnArgument(args: seq<string>, so: Options)
    ensures var r := ReadArguments(args, so);
            r.Ok? && r.value.range.Some? ==>
              r.value.range == so.range || (r.value.range.value in args && !StartsWith(r.value.range.value, "-"))
    decreases |args|
  {
    if args == [] {
    } else {
      if args[0] == "--repo" {
        if |args| >= 2 { RangeIsAnArgument(args[2..], so.(repository := Some(args[1]))); }
      } else if StartsWith(args[0], "--repo=") {
        RangeIsAnArgument(args[1..], so.(repository := Some(args[0][7..])));
      } else {
        RangeIsAnArgument(args[1..], so.(range := Some(args[0])));
      }
    }
  }

  /** Whatever the arguments, an accepted comparison is one of them, rejoined from two valid refs. */
  lemma {:induction false} AcceptedRangeRejoins(supportedHost: string -> bool, args: seq<string>)
    ensures var r := ParseCompare(supportedHost, args);
            r.Ok? && !r.value.help ==>
              && ValidGitRef(r.value.base) && ValidGitRef(r.value.head) && !StartsWith(r.value.base, "-")
              && r.value.base + DOTS + r.value.head in args
              && (r.value.repository.Some? ==> ValidRepository(supportedHost, r.value.repository.value))
  {
    var r := ParseCompare(supportedHost, args);
    if r.Ok? && !r.value.help {
      var owned := args[..Separator(args)];
      RangeIsAnArgument(owned, Options(None, None));
      var range := ReadArguments(owned, Options(None, None)).value.range.value;
      assert range in owned && forall arg <- owned :: arg in args;
      SplitDotsRejoins(range);
      var parts := SplitDots(range);
      assert parts == [parts[0], parts[1]];
      JoinCons(parts[0], [parts[1]], DOTS);
      assert range == r.value.base + DOTS + r.value.head;
      assert range[0] == r.value.base[0];
    }
  }
}
