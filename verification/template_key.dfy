/** Parsing the text inside `{{ }}` into one of the three key kinds, by
    splitting on `.` the way Rust's `str::split` does. */
module TemplateKeys {
  import opened Wrappers
  import opened TemplateErrors

  /** Glue pieces back together with `.` between consecutive ones. */
  function Join(parts: seq<string>): string
    requires |parts| >= 1
  {
    if |parts| == 1 then parts[0] else parts[0] + "." + Join(parts[1..])
  }

  /** Split on every `.`. Like `str::split`, the result always has at least
      one piece, and empty pieces are kept (`"."` gives two empty pieces). */
  function Split(s: string): (parts: seq<string>)
    ensures |parts| >= 1
    ensures forall i :: 0 <= i < |parts| ==> '.' !in parts[i]
    ensures Join(parts) == s
  {
    if |s| == 0 then [""]
    else
      var rest := Split(s[1..]);
      if s[0] == '.' then [""] + rest
      else [[s[0]] + rest[0]] + rest[1..]
  }

  /** Splitting undoes joining, so `Split` and `Join` are inverse on lists of
      dot-free pieces: the pieces of a key are determined by its text. */
  lemma {:induction false} SplitJoin(parts: seq<string>)
    requires |parts| >= 1
    requires forall i :: 0 <= i < |parts| ==> '.' !in parts[i]
    ensures Split(Join(parts)) == parts
    decreases |parts|, |parts[0]|
  {
    if |parts[0]| == 0 {
      if |parts| > 1 {
        assert Join(parts) == "." + Join(parts[1..]);
        SplitJoin(parts[1..]);
        assert Join(parts)[1..] == Join(parts[1..]);
      }
    } else {
      var c := parts[0][0];
      var tail := [parts[0][1..]] + parts[1..];
      assert c != '.' by { assert parts[0][0] in parts[0]; }
      DotFreeTail(parts);
      SplitJoin(tail);
      JoinFirstChar(parts);
      assert Join(parts)[1..] == Join(tail);
      assert [c] + parts[0][1..] == parts[0];
    }
  }

  /** Dropping the first character of the first piece keeps every piece
      free of dots. */
  lemma DotFreeTail(parts: seq<string>)
    requires |parts| >= 1 && |parts[0]| > 0
    requires forall i :: 0 <= i < |parts| ==> '.' !in parts[i]
    ensures var tail := [parts[0][1..]] + parts[1..];
      forall i :: 0 <= i < |tail| ==> '.' !in tail[i]
  {
    var tail := [parts[0][1..]] + parts[1..];
    forall i | 0 <= i < |tail| ensures '.' !in tail[i] {
      if i == 0 {
        assert forall x :: x in parts[0][1..] ==> x in parts[0];
      } else {
        assert tail[i] == parts[i];
      }
    }
  }

  /** The joined text starts with the first character of the first piece,
      followed by the rest joined the same way. */
  lemma JoinFirstChar(parts: seq<string>)
    requires |parts| >= 1 && |parts[0]| > 0
    ensures Join(parts) == [parts[0][0]] + Join([parts[0][1..]] + parts[1..])
  {
    var c, x := parts[0][0], parts[0][1..];
    var tail := [x] + parts[1..];
    assert parts[0] == [c] + x;
    assert tail[1..] == parts[1..];
    if |parts| > 1 {
      DotAssoc([c], x, Join(parts[1..]));
    }
  }

  lemma DotAssoc(a: string, b: string, c: string)
    ensures (a + b) + "." + c == a + (b + "." + c)
  {
  }

  /** The closed set of key kinds. */
  datatype TemplateKey =
    | Field(name: string)
    | Chain(chainId: string)
    | Environment(variable: string)

  /** A key whose payload has no `.`, i.e. one that `Parse` can produce. */
  predicate WellFormed(k: TemplateKey) {
    match k
    case Field(n) => '.' !in n
    case Chain(id) => '.' !in id
    case Environment(v) => '.' !in v
  }

  /** The text a key is written as inside the braces. */
  function Unparse(k: TemplateKey): string {
    match k
    case Field(n) => n
    case Chain(id) => "chains." + id
    case Environment(v) => "env." + v
  }

  /** One piece is a field, `chains.<id>` a chain, `env.<name>` an environment
      variable; any other shape fails with the whole raw key. */
  function Parse(s: string): (r: Result<TemplateKey, TemplateError>)
    ensures r.Failure? ==> r.error == InvalidKey(s)
  {
    var parts := Split(s);
    if |parts| == 1 then Success(Field(parts[0]))
    else if |parts| == 2 && parts[0] == "chains" then Success(Chain(parts[1]))
    else if |parts| == 2 && parts[0] == "env" then Success(Environment(parts[1]))
    else Failure(InvalidKey(s))
  }

  /** Every parsed key is well formed and is written exactly as the text it
      was parsed from. */
  lemma ParseUnparse(s: string)
    requires Parse(s).Success?
    ensures WellFormed(Parse(s).value)
    ensures Unparse(Parse(s).value) == s
  {
    var parts := Split(s);
    assert Join(parts) == s;
    if |parts| == 2 {
      assert Join(parts) == parts[0] + "." + parts[1];
    }
  }

  /** Every well-formed key is recovered from its text. Together with
      `ParseUnparse` this means `Parse` fails exactly on the texts that are
      not the text of any well-formed key. */
  lemma UnparseParse(k: TemplateKey)
    requires WellFormed(k)
    ensures Parse(Unparse(k)) == Success(k)
  {
    match k
    case Field(n) =>
      SplitJoin([n]);
    case Chain(id) =>
      SplitJoin(["chains", id]);
      assert Join(["chains", id]) == "chains." + id;
    case Environment(v) =>
      SplitJoin(["env", v]);
      assert Join(["env", v]) == "env." + v;
  }

  /** `chains.` is accepted as a chain key with an empty id rather than
      rejected; it can only fail later, as an unknown chain. */
  lemma ParseEmptyChainId()
    ensures Parse("chains.") == Success(Chain(""))
  {
    SplitJoin(["chains", ""]);
    assert Join(["chains", ""]) == "chains.";
  }

  /** An empty piece on either side of the `.` makes a key invalid, and the
      error carries the whole raw key. */
  lemma ParseRejectsEmptyPieces()
    ensures Parse(".") == Failure(InvalidKey("."))
    ensures Parse(".bad") == Failure(InvalidKey(".bad"))
    ensures Parse("bad.") == Failure(InvalidKey("bad."))
  {
    var bad := "bad";
    assert forall i | 0 <= i < |bad| :: bad[i] != '.';
    RejectTwoPieces("", "");
    RejectTwoPieces("", bad);
    RejectTwoPieces(bad, "");
  }

  /** A chain key with a third piece is invalid. */
  lemma ParseRejectsExtraPiece()
    ensures Parse("chains.good.bad") == Failure(InvalidKey("chains.good.bad"))
  {
    SplitJoin(["chains", "good", "bad"]);
    assert Join(["chains", "good", "bad"]) == "chains.good.bad";
  }

  /** Two pieces whose first is neither `chains` nor `env` are rejected. */
  lemma RejectTwoPieces(a: string, b: string)
    requires '.' !in a && '.' !in b
    requires a != "chains" && a != "env"
    ensures Parse(a + "." + b) == Failure(InvalidKey(a + "." + b))
  {
    SplitJoin([a, b]);
    assert Join([a, b]) == a + "." + b;
  }
}
