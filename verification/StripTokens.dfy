/**
 * What the comment stripper makes of a text written token by token
 * (tools/check-module-shapes.py): comments become blanks, everything else stays.
 */
module StripTokens {
  import opened Common
  import opened ModuleShapes

  /** A character of a literal: itself, or escaped. */
  datatype Item = Ch(c: char) | Escaped(c: char)

  datatype Token =
    | Plain(c: char)                            // any character but a quote or a slash
    | Divide(c: char)                           // a slash that opens no comment
    | Literal(q: char, items: seq<Item>)        // closed by its own quote
    | Unclosed(q: char, items: seq<Item>)       // ended by its line
    | LineComment(text: string)                 // up to and with the end of its line
    | BlockComment(text: string)

  function ItemText(x: Item): string {
    match x
    case Ch(c) => [c]
    case Escaped(c) => ['\\', c]
  }

  function ItemsText(items: seq<Item>): string {
    if items == [] then [] else ItemText(items[0]) + ItemsText(items[1..])
  }

  function Text(t: Token): string {
    match t
    case Plain(c) => [c]
    case Divide(c) => ['/', c]
    case Literal(q, items) => [q] + ItemsText(items) + [q]
    case Unclosed(q, items) => [q] + ItemsText(items) + ['\n']
    case LineComment(text) => ['/', '/'] + text + ['\n']
    case BlockComment(text) => ['/', '*'] + text + ['*', '/']
  }

  /** A comment's text with everything but the line ends blanked. */
  function Blanks(text: string): string {
    seq(|text|, i requires 0 <= i < |text| => if text[i] == '\n' then '\n' else ' ')
  }

  /** What is left of a token. */
  function Kept(t: Token): string {
    match t
    case LineComment(text) => Blanks(Text(t))
    case BlockComment(text) => Blanks(Text(t))
    case _ => Text(t)
  }

  predicate PlainChar(c: char) {
    c != '/' && c != '"' && c != '\''
  }

  predicate ItemOk(q: char, x: Item) {
    x.Ch? ==> x.c != q && x.c != '\\' && x.c != '\n'
  }

  /** The text of a token is one of its kind. */
  predicate TokenOk(t: Token) {
    match t
    case Plain(c) => PlainChar(c)
    case Divide(c) => PlainChar(c) && c != '*'
    case Literal(q, items) => IsQuote(q) && forall k | 0 <= k < |items| :: ItemOk(q, items[k])
    case Unclosed(q, items) => IsQuote(q) && forall k | 0 <= k < |items| :: ItemOk(q, items[k])
    case LineComment(text) => '\n' !in text
    // no end before its end; one that begins with a slash ends there
    case BlockComment(text) =>
      (text == [] || text[0] != '/') && forall k | 0 <= k < |text| - 1 :: !(text[k] == '*' && text[k + 1] == '/')
  }

  function Print(ts: seq<Token>): string {
    if ts == [] then [] else Text(ts[0]) + Print(ts[1..])
  }

  function PrintKept(ts: seq<Token>): string {
    if ts == [] then [] else Kept(ts[0]) + PrintKept(ts[1..])
  }

  /** `x` stands in `s` at `i`. */
  ghost predicate Stands(s: string, i: nat, x: string) {
    i + |x| <= |s| && s[i..i + |x|] == x
  }

  /** From `i` on, `s` shows `y`. */
  ghost predicate Shows(s: string, i: nat, y: string) {
    i + |y| <= |s| && forall k | 0 <= k < |y| :: Shown(s, i + k) == y[k]
  }

  lemma BlanksJoin(x: string, y: string)
    ensures Blanks(x + y) == Blanks(x) + Blanks(y)
  {
  }

  lemma StandsSplit(s: string, i: nat, x: string, y: string)
    requires Stands(s, i, x + y)
    ensures Stands(s, i, x) && Stands(s, i + |x|, y)
  {
    var w := s[i..i + |x + y|];
    assert w[..|x|] == x && w[|x|..] == y;
  }

  lemma StandsAt(s: string, i: nat, x: string, k: nat)
    requires Stands(s, i, x) && k < |x|
    ensures s[i + k] == x[k]
  {
    assert s[i..i + |x|][k] == s[i + k];
  }

  lemma ShowsJoin(s: string, i: nat, x: string, y: string)
    requires Shows(s, i, x) && Shows(s, i + |x|, y)
    ensures Shows(s, i, x + y)
  {
    forall k | 0 <= k < |x + y| ensures Shown(s, i + k) == (x + y)[k] {
      if k >= |x| {
        assert i + k == i + |x| + (k - |x|);
      }
    }
  }

  /** Inside a literal nothing but its items is read, and all of them are shown. */
  lemma {:induction false} ItemsRun(s: string, i: nat, q: char, items: seq<Item>)
    requires Stands(s, i, ItemsText(items)) && StateAt(s, i) == Str(q) && IsQuote(q)
    requires forall k | 0 <= k < |items| :: ItemOk(q, items[k])
    ensures var n := |ItemsText(items)|; StateAt(s, i + n) == Str(q) && Shows(s, i, ItemsText(items))
    decreases |items|
  {
    if items != [] {
      var head, rest := ItemText(items[0]), ItemsText(items[1..]);
      StandsSplit(s, i, head, rest);
      OneItem(s, i, q, items[0]);
      ItemsRun(s, i + |head|, q, items[1..]);
      ShowsJoin(s, i, head, rest);
    }
  }

  lemma OneItem(s: string, i: nat, q: char, x: Item)
    requires Stands(s, i, ItemText(x)) && StateAt(s, i) == Str(q) && IsQuote(q) && ItemOk(q, x)
    ensures StateAt(s, i + |ItemText(x)|) == Str(q) && Shows(s, i, ItemText(x))
  {
    if x.Escaped? {
      EscapeRuns(s, i, q, x.c);
    } else {
      StandsAt(s, i, [x.c], 0);
    }
  }

  lemma EscapeRuns(s: string, i: nat, q: char, c: char)
    requires Stands(s, i, ['\\', c]) && StateAt(s, i) == Str(q) && q != '\\'
    ensures StateAt(s, i + 2) == Str(q) && Shows(s, i, ['\\', c])
  {
    StandsAt(s, i, ['\\', c], 0);
    StandsAt(s, i, ['\\', c], 1);
    assert StateAt(s, i + 1) == Esc(q);
  }

  /** A character of a comment is blank. */
  lemma OneBlank(s: string, i: nat, head: string)
    requires Stands(s, i, head) && |head| == 1 && (InComment(s, i) || s[i] == '\n')
    ensures Shows(s, i, Blanks(head))
  {
    StandsAt(s, i, head, 0);
  }

  lemma LineStep(s: string, i: nat, c: char)
    requires Stands(s, i, [c]) && StateAt(s, i) == Line && c != '\n'
    ensures StateAt(s, i + 1) == Line && Shows(s, i, Blanks([c]))
  {
    StandsAt(s, i, [c], 0);
    OneBlank(s, i, [c]);
  }

  lemma {:induction false} LineRun(s: string, i: nat, text: string)
    requires Stands(s, i, text) && StateAt(s, i) == Line && '\n' !in text
    ensures StateAt(s, i + |text|) == Line && Shows(s, i, Blanks(text))
    decreases |text|
  {
    if text != [] {
      var head, rest := [text[0]], text[1..];
      assert text == head + rest;
      StandsSplit(s, i, head, rest);
      LineStep(s, i, text[0]);
      LineRun(s, i + 1, rest);
      ShowsJoin(s, i, Blanks(head), Blanks(rest));
      BlanksJoin(head, rest);
    }
  }

  /** A block comment's text, when what follows it is its end. */
  lemma {:induction false} BlockRun(s: string, i: nat, text: string)
    requires Stands(s, i, text + ['*', '/']) && StateAt(s, i) == Block
    requires forall k | 0 <= k < |text| - 1 :: !(text[k] == '*' && text[k + 1] == '/')
    ensures StateAt(s, i + |text| + 2) == Code && Shows(s, i, Blanks(text + ['*', '/']))
    decreases |text|
  {
    var whole := text + ['*', '/'];
    StandsAt(s, i, whole, 0);
    StandsAt(s, i, whole, 1);
    if text == [] {
      assert StateAt(s, i + 1) == BlockEnd;
      assert Blanks(whole) == [' ', ' '];
    } else {
      var head, rest := text[..1], text[1..] + ['*', '/'];
      assert whole == head + rest;
      StandsSplit(s, i, head, rest);
      assert StateAt(s, i + 1) == Block;
      BlockRun(s, i + 1, text[1..]);
      OneBlank(s, i, head);
      ShowsJoin(s, i, Blanks(head), Blanks(rest));
      BlanksJoin(head, rest);
    }
  }

  /** Each token is read from code back to code. */
  lemma TokenRuns(s: string, i: nat, t: Token)
    requires TokenOk(t) && Stands(s, i, Text(t)) && StateAt(s, i) == Code
    ensures StateAt(s, i + |Text(t)|) == Code && Shows(s, i, Kept(t)) && |Kept(t)| == |Text(t)|
  {
    StandsAt(s, i, Text(t), 0);
    match t {
      case Plain(c) =>
      case Divide(c) => StandsAt(s, i, Text(t), 1);
      case Literal(q, items) => LiteralRuns(s, i, q, items, q);
      case Unclosed(q, items) => LiteralRuns(s, i, q, items, '\n');
      case LineComment(text) => LineRuns(s, i, text);
      case BlockComment(text) => BlockRuns(s, i, text);
    }
  }

  lemma LiteralRuns(s: string, i: nat, q: char, items: seq<Item>, end: char)
    requires IsQuote(q) && (end == q || end == '\n') && forall k | 0 <= k < |items| :: ItemOk(q, items[k])
    requires Stands(s, i, [q] + ItemsText(items) + [end]) && StateAt(s, i) == Code
    ensures var x := [q] + ItemsText(items) + [end]; StateAt(s, i + |x|) == Code && Shows(s, i, x)
  {
    var most := [q] + ItemsText(items);
    StandsSplit(s, i, most, [end]);
    MostOfLiteral(s, i, q, items);
    LiteralEnds(s, i + |most|, q, end);
    ShowsJoin(s, i, most, [end]);
  }

  /** A literal but for its end. */
  lemma MostOfLiteral(s: string, i: nat, q: char, items: seq<Item>)
    requires IsQuote(q) && forall k | 0 <= k < |items| :: ItemOk(q, items[k])
    requires Stands(s, i, [q] + ItemsText(items)) && StateAt(s, i) == Code
    ensures var x := [q] + ItemsText(items); StateAt(s, i + |x|) == Str(q) && Shows(s, i, x)
  {
    var body := ItemsText(items);
    StandsSplit(s, i, [q], body);
    QuoteOpens(s, i, q);
    ItemsRun(s, i + 1, q, items);
    ShowsJoin(s, i, [q], body);
  }

  lemma QuoteOpens(s: string, i: nat, q: char)
    requires IsQuote(q) && Stands(s, i, [q]) && StateAt(s, i) == Code
    ensures StateAt(s, i + 1) == Str(q) && Shows(s, i, [q])
  {
    StandsAt(s, i, [q], 0);
  }

  lemma LiteralEnds(s: string, i: nat, q: char, end: char)
    requires (end == q || end == '\n') && Stands(s, i, [end]) && StateAt(s, i) == Str(q)
    ensures StateAt(s, i + 1) == Code && Shows(s, i, [end])
  {
    StandsAt(s, i, [end], 0);
  }

  /** The two characters that open a comment are blank. */
  lemma CommentOpens(s: string, i: nat, c: char)
    requires (c == '/' || c == '*') && Stands(s, i, ['/', c]) && StateAt(s, i) == Code
    requires c == '*' && i + 2 < |s| ==> s[i + 2] != '/'
    ensures StateAt(s, i + 2) == (if c == '/' then Line else Block) && Shows(s, i, Blanks(['/', c]))
  {
    StandsAt(s, i, ['/', c], 0);
    StandsAt(s, i, ['/', c], 1);
    assert StateAt(s, i + 1) == if c == '/' then Line else Block;
  }

  lemma LineRuns(s: string, i: nat, text: string)
    requires '\n' !in text && Stands(s, i, ['/', '/'] + text + ['\n']) && StateAt(s, i) == Code
    ensures var x := ['/', '/'] + text + ['\n']; StateAt(s, i + |x|) == Code && Shows(s, i, Blanks(x))
  {
    var open := ['/', '/'];
    StandsSplit(s, i, open + text, ['\n']);
    StandsSplit(s, i, open, text);
    CommentOpens(s, i, '/');
    LineRun(s, i + 2, text);
    LineEnds(s, i + 2 + |text|);
    ShowsJoin(s, i, Blanks(open), Blanks(text));
    BlanksJoin(open, text);
    ShowsJoin(s, i, Blanks(open + text), Blanks(['\n']));
    BlanksJoin(open + text, ['\n']);
  }

  lemma LineEnds(s: string, i: nat)
    requires Stands(s, i, ['\n']) && StateAt(s, i) == Line
    ensures StateAt(s, i + 1) == Code && Shows(s, i, Blanks(['\n']))
  {
    StandsAt(s, i, ['\n'], 0);
  }

  lemma BlockRuns(s: string, i: nat, text: string)
    requires TokenOk(BlockComment(text)) && Stands(s, i, ['/', '*'] + text + ['*', '/']) && StateAt(s, i) == Code
    ensures var x := ['/', '*'] + text + ['*', '/']; StateAt(s, i + |x|) == Code && Shows(s, i, Blanks(x))
  {
    var open, end := ['/', '*'], text + ['*', '/'];
    assert open + text + ['*', '/'] == open + end;
    StandsSplit(s, i, open, end);
    StandsAt(s, i + 2, end, 0);
    CommentOpens(s, i, '*');
    BlockRun(s, i + 2, text);
    ShowsJoin(s, i, Blanks(open), Blanks(end));
    BlanksJoin(open, end);
  }

  lemma {:induction false} TokensRun(s: string, i: nat, ts: seq<Token>)
    requires (forall k | 0 <= k < |ts| :: TokenOk(ts[k])) && Stands(s, i, Print(ts)) && StateAt(s, i) == Code
    ensures Shows(s, i, PrintKept(ts)) && |PrintKept(ts)| == |Print(ts)|
    decreases |ts|
  {
    if ts != [] {
      StandsSplit(s, i, Text(ts[0]), Print(ts[1..]));
      TokenRuns(s, i, ts[0]);
      TokensRun(s, i + |Text(ts[0])|, ts[1..]);
      ShowsJoin(s, i, Kept(ts[0]), PrintKept(ts[1..]));
    }
  }

  /**
   * A text written as tokens: stripping it blanks exactly the comments, their line ends
   * kept, and leaves code and literals - whatever they contain - as they are.
   */
  lemma TokensStrip(ts: seq<Token>)
    requires forall k | 0 <= k < |ts| :: TokenOk(ts[k])
    ensures Stripped(Print(ts)) == PrintKept(ts)
  {
    var s := Print(ts);
    assert s[0..0 + |s|] == s;
    TokensRun(s, 0, ts);
    assert forall k | 0 <= k < |s| :: Stripped(s)[k] == Shown(s, 0 + k);
  }
}
