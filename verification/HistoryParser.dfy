/** The batch parser shared by the Git and Jujutsu history sources: fixed-arity NUL-delimited records. */
module HistoryParser {
  import opened Wrappers
  import opened Text

  /** Which backend a record stream comes from; they react differently to errors and aborts. */
  datatype Flavour = Git | Jj

  /** Fields per record: 8 for Git, 13 for Jujutsu. */
  type Arity = n: int | 2 <= n witness 8

  /** Why a record stream does not parse. */
  datatype Error =
    | TruncatedRecord | WrongArity | IncompleteRecord | InvalidRecord | InvalidObjectId | InvalidParentId

  /** How one backend frames its records and turns the fields of a record into a commit. */
  datatype Provider<!C> = Provider(flavour: Flavour, arity: Arity, decode: seq<string> -> Result<C, Error>)

  /** The record loop: decode each group of `arity` fields, or report the first bad one. */
  function DecodeAll<C>(p: Provider<C>, fields: seq<string>): Result<seq<C>, Error>
    decreases |fields|
  {
    if |fields| < p.arity then Ok([])
    else match p.decode(fields[..p.arity])
      case Err(e) => Err(e)
      case Ok(commit) =>
        match DecodeAll(p, fields[p.arity..])
        case Err(e) => Err(e)
        case Ok(rest) => Ok([commit] + rest)
  }

  function ParseHistory<C>(p: Provider<C>, text: string): Result<seq<C>, Error> {
    if text == "" then Ok([])
    else
      var split := Split(text, NUL);
      var last := |split| - 1;
      var fields := if |split| % p.arity == 1 && split[last] == "" then split[..last] else split;
      if |fields| % p.arity != 0 then Err(TruncatedRecord) else DecodeAll(p, fields)
  }

  /** Whole records, counted by taking one away at a time. */
  predicate Whole(x: int, n: int)
    requires 0 < n
    decreases x
  {
    x == 0 || (n <= x && Whole(x - n, n))
  }

  lemma {:induction false} WholeIsMod(x: nat, n: int)
    requires 0 < n
    ensures Whole(x, n) <==> x % n == 0
    decreases x
  {
    if n <= x {
      WholeIsMod(x - n, n);
      ModStep(x, n);
    } else {
      ModUnique(x, n, 0, x);
    }
  }

  lemma {:induction false} ModStep(x: int, n: int)
    requires 0 < n <= x
    ensures x % n == (x - n) % n
  {
    var q, r := (x - n) / n, (x - n) % n;
    assert x == n * (q + 1) + r;
    ModUnique(x, n, q + 1, r);
  }

  lemma {:induction false} ModUnique(x: int, n: int, q: int, r: int)
    requires 0 < n && 0 <= r < n && x == n * q + r
    ensures x % n == r
  {
    var q', r' := x / n, x % n;
    assert x == n * q' + r';
    assert n * (q - q') == r' - r;
    MulSize(n, q - q');
  }

  lemma {:induction false} MulSize(n: int, d: int)
    requires 0 < n
    ensures d == 0 || n * d >= n || n * d <= -n
  {
  }

  /** What a decoded suffix adds to the records already decoded. */
  function After<C>(commits: seq<C>, rest: Result<seq<C>, Error>): Result<seq<C>, Error> {
    match rest
    case Err(e) => Err(e)
    case Ok(more) => Ok(commits + more)
  }

  /** Both backends' parser as written: an offset that advances one record at a time. */
  method ParseBatch<C>(p: Provider<C>, text: string) returns (r: Result<seq<C>, Error>)
    ensures r == ParseHistory(p, text)
  {
    if text == "" { return Ok([]); }
    var fields := Split(text, NUL);
    if |fields| % p.arity == 1 && fields[|fields| - 1] == "" {
      fields := fields[..|fields| - 1];
    }
    if |fields| % p.arity != 0 { return Err(TruncatedRecord); }
    r := DecodeRecords(p, fields);
  }

  /** The record loop of the parser. */
  method DecodeRecords<C>(p: Provider<C>, fields: seq<string>) returns (r: Result<seq<C>, Error>)
    requires |fields| % p.arity == 0
    ensures r == DecodeAll(p, fields)
  {
    WholeIsMod(|fields|, p.arity);
    var commits: seq<C> := [];
    var offset := 0;
    assert fields[0..] == fields;
    AfterNothing(DecodeAll(p, fields));
    while offset < |fields|
      invariant 0 <= offset <= |fields|
      invariant Whole(|fields| - offset, p.arity)
      invariant DecodeAll(p, fields) == After(commits, DecodeAll(p, fields[offset..]))
    {
      var next := offset + p.arity;
      assert fields[offset..][..p.arity] == fields[offset..next];
      assert fields[offset..][p.arity..] == fields[next..];
      match p.decode(fields[offset..next]) {
        case Err(e) =>
          return Err(e);
        case Ok(commit) =>
          ghost var rest := DecodeAll(p, fields[next..]);
          if rest.Ok? {
            assert commits + ([commit] + rest.value) == commits + [commit] + rest.value;
          }
          commits := commits + [commit];
      }
      offset := next;
    }
    assert commits + [] == commits;
    r := Ok(commits);
  }

  lemma {:induction false} AfterNothing<C>(r: Result<seq<C>, Error>)
    ensures After([], r) == r
  {
    if r.Ok? {
      assert [] + r.value == r.value;
    }
  }
}
