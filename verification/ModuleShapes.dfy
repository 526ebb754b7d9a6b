/**
 * The comment-blanking lexer and the call closure of the module-shape checker
 * (tools/check-module-shapes.py).
 */
module ModuleShapes {
  import opened Common

  // ------------------------------------------------------------------------ the lexer

  /** Where a character stands: code, a string literal, after a backslash in one, a comment, or its closing slash. */
  datatype State = Code | Str(q: char) | Esc(q: char) | Line | Block | BlockEnd

  function At(s: string, i: nat): Option<char> {
    if i < |s| then Some(s[i]) else None
  }

  predicate IsQuote(c: char) {
    c == '"' || c == '\''
  }

  /** A comment opens here. */
  predicate Opens(c: char, next: Option<char>) {
    c == '/' && (next == Some('/') || next == Some('*'))
  }

  /** One character read, the next one in sight. */
  function Step(state: State, c: char, next: Option<char>): State {
    match state
    case Code =>
      if IsQuote(c) then Str(c)
      else if c == '/' && next == Some('/') then Line
      else if c == '/' && next == Some('*') then Block
      else Code
    case Str(q) => if c == q || c == '\n' then Code else if c == '\\' then Esc(q) else Str(q)
    case Esc(q) => Str(q)
    case Line => if c == '\n' then Code else Line
    case Block => if c == '*' && next == Some('/') then BlockEnd else Block
    case BlockEnd => Code
  }

  /** The state before character `i`. */
  function StateAt(s: string, i: nat): State
    requires i <= |s|
  {
    if i == 0 then Code else Step(StateAt(s, i - 1), s[i - 1], At(s, i))
  }

  /** Character `i` belongs to a comment. */
  predicate InComment(s: string, i: nat)
    requires i < |s|
  {
    match StateAt(s, i)
    case Code => Opens(s[i], At(s, i + 1))
    case Str(_) => false
    case Esc(_) => false
    case Line => s[i] != '\n'
    case Block => true
    case BlockEnd => true
  }

  /** Character `i` with comments blanked, newlines kept. */
  function Shown(s: string, i: nat): char
    requires i < |s|
  {
    if InComment(s, i) && s[i] != '\n' then ' ' else s[i]
  }

  /** `s` with its comments blanked. */
  function Stripped(s: string): string {
    seq(|s|, i requires 0 <= i < |s| => Shown(s, i))
  }

  /** Blank comments in place: a string literal is skipped, an escape with it, and a literal ends with its line. */
  method StripComments(src: string) returns (res: string)
    ensures res == Stripped(src)
  {
    var n := |src|;
    var out := new char[n](i requires 0 <= i < n => src[i]);
    var i := 0;
    while i < n
      invariant Ready(src, i) && Blanked(src, out, i)
      decreases n - i
    {
      i := BlankToken(src, out, i);
    }
    res := out[..];
    BlankedAll(src, out, i);
  }

  /** One token: a literal, a comment or a plain character. */
  method BlankToken(src: string, out: array<char>, start: nat) returns (i: nat)
    requires start < |src| && Ready(src, start) && Blanked(src, out, start)
    modifies out
    ensures start < i && Ready(src, i) && Blanked(src, out, i)
  {
    var c := src[start];
    if IsQuote(c) {
      i := SkipString(src, out, start);
    } else if c == '/' && start + 1 < |src| && src[start + 1] == '/' {
      i := BlankLine(src, out, start);
    } else if c == '/' && start + 1 < |src| && src[start + 1] == '*' {
      i := BlankBlock(src, out, start);
    } else {
      PlainStep(src, out, start);
      i := start + 1;
    }
  }

  lemma BlankedAll(src: string, out: array<char>, i: nat)
    requires i >= |src| && Blanked(src, out, i)
    ensures out[..] == Stripped(src)
  {
    assert forall k | 0 <= k < |src| :: out[..][k] == Shown(src, k);
  }

  /** Between two tokens: in code, or at the newline that ends a line comment. */
  ghost predicate Ready(src: string, i: nat) {
    i < |src| ==> StateAt(src, i) == Code || (StateAt(src, i) == Line && src[i] == '\n')
  }

  /** The text is stripped up to `i` and untouched from there. */
  ghost predicate Blanked(src: string, out: array<char>, i: nat)
    reads out
  {
    && out.Length == |src|
    && (forall k | 0 <= k < i && k < |src| :: out[k] == Shown(src, k))
    && (forall k | i <= k < |src| :: out[k] == src[k])
  }

  /** A character that opens no literal and no comment is code. */
  lemma PlainStep(src: string, out: array<char>, i: nat)
    requires i < |src| && Ready(src, i) && !IsQuote(src[i]) && !Opens(src[i], At(src, i + 1)) && Blanked(src, out, i)
    ensures Ready(src, i + 1) && Blanked(src, out, i + 1)
  {
  }

  method SkipString(src: string, ghost out: array<char>, start: nat) returns (i: nat)
    requires start < |src| && StateAt(src, start) == Code && IsQuote(src[start]) && Blanked(src, out, start)
    ensures i > start && Ready(src, i) && Blanked(src, out, i)
  {
    var q := src[start];
    i := start + 1;
    while i < |src| && src[i] != q && src[i] != '\n'
      invariant i > start && (i <= |src| ==> StateAt(src, i) == Str(q))
      invariant Blanked(src, out, i)
      decreases |src| - i
    {
      i := i + if src[i] == '\\' then 2 else 1;
    }
    i := i + 1;
  }

  method BlankLine(src: string, out: array<char>, start: nat) returns (i: nat)
    requires out.Length == |src| && start + 1 < |src| && src[start] == '/' && src[start + 1] == '/'
    requires StateAt(src, start) == Code && Blanked(src, out, start)
    modifies out
    ensures start < i <= |src| && Ready(src, i) && Blanked(src, out, i)
  {
    i := start;
    while i < |src| && src[i] != '\n'
      invariant start <= i <= |src| && StateAt(src, i) == if i == start then Code else Line
      invariant Blanked(src, out, i)
    {
      out[i] := ' ';
      i := i + 1;
    }
  }

  method BlankBlock(src: string, out: array<char>, start: nat) returns (i: nat)
    requires out.Length == |src| && start + 1 < |src| && src[start] == '/' && src[start + 1] == '*'
    requires StateAt(src, start) == Code && Blanked(src, out, start)
    modifies out
    ensures start < i <= |src| && Ready(src, i) && Blanked(src, out, i)
  {
    i := start;
    while i < |src| && !(src[i] == '*' && i + 1 < |src| && src[i + 1] == '/')
      invariant start <= i <= |src| && StateAt(src, i) == if i == start then Code else Block
      invariant Blanked(src, out, i)
    {
      if src[i] != '\n' {
        out[i] := ' ';
      }
      i := i + 1;
    }
    if i < |src| {
      out[i], out[i + 1] := ' ', ' ';
      assert StateAt(src, i + 1) == BlockEnd;
      i := i + 2;
    }
  }

  // ------------------------------------------------------- what stripping promises

  /** Reading the stripped text: outside comments the same state, inside one plain code. */
  lemma {:induction false} StrippedState(s: string, i: nat)
    requires i <= |s|
    ensures StateAt(Stripped(s), i) ==
      if StateAt(s, i).Line? || StateAt(s, i).Block? || StateAt(s, i).BlockEnd? then Code else StateAt(s, i)
  {
    if i > 0 {
      StrippedState(s, i - 1);
      var t := Stripped(s);
      var c, next := s[i - 1], At(s, i);
      assert At(t, i) == next || At(t, i) == Some(' ');
      assert t[i - 1] == if InComment(s, i - 1) && c != '\n' then ' ' else c;
    }
  }

  /**
   * Offsets into the result are offsets into the source: same length, same newlines, code
   * and literals untouched. No comment is left, so stripping again changes nothing.
   */
  lemma StripIsIdempotent(s: string)
    ensures |Stripped(s)| == |s|
    ensures forall i | 0 <= i < |s| ::
      (Stripped(s)[i] == '\n' <==> s[i] == '\n') && (!InComment(s, i) ==> Stripped(s)[i] == s[i])
    ensures forall i | 0 <= i < |s| :: !InComment(Stripped(s), i)
    ensures Stripped(Stripped(s)) == Stripped(s)
  {
    var t := Stripped(s);
    forall i | 0 <= i < |s| ensures !InComment(t, i) {
      StrippedState(s, i);
      assert At(t, i + 1) == At(s, i + 1) || At(t, i + 1) == Some(' ');
    }
  }

  /** A text without comments is its own stripping, and only such a text is. */
  lemma StripFixesIff(s: string)
    ensures Stripped(s) == s <==> forall i | 0 <= i < |s| && InComment(s, i) :: s[i] == ' ' || s[i] == '\n'
  {
    if Stripped(s) == s {
      forall i | 0 <= i < |s| && InComment(s, i) ensures s[i] == ' ' || s[i] == '\n' {
        assert Stripped(s)[i] == s[i];
      }
    }
  }

  // ---------------------------------------------------------------------- the closure

  /** A call chain from `a` to `b` through the given functions. */
  ghost predicate Chain(fns: set<string>, calls: (string, string) -> bool, path: seq<string>, a: string, b: string) {
    && path != [] && path[0] == a && path[|path| - 1] == b
    && (forall k | 0 <= k < |path| :: path[k] in fns)
    && forall k | 0 <= k < |path| - 1 :: calls(path[k], path[k + 1])
  }

  ghost predicate Reaches(fns: set<string>, calls: (string, string) -> bool, a: string, b: string) {
    exists path :: Chain(fns, calls, path, a, b)
  }

  ghost predicate Distinct(s: seq<string>) {
    forall j, k | 0 <= j < k < |s| :: s[j] != s[k]
  }

  lemma ReachesStep(fns: set<string>, calls: (string, string) -> bool, a: string, b: string, c: string)
    requires Reaches(fns, calls, a, b) && c in fns && calls(b, c)
    ensures Reaches(fns, calls, a, c)
  {
    var path :| Chain(fns, calls, path, a, b);
    assert Chain(fns, calls, path + [c], a, c);
  }

  /** A set holding `a` and everything its members call holds all that `a` reaches. */
  lemma {:induction false} ClosedHoldsChain(
    fns: set<string>, calls: (string, string) -> bool, path: seq<string>, a: string, b: string, closed: seq<string>)
    requires Chain(fns, calls, path, a, b) && a in closed
    requires forall x, y | x in closed && y in fns && calls(x, y) :: y in closed
    ensures b in closed
  {
    if |path| > 1 {
      ClosedHoldsChain(fns, calls, path[1..], path[1], b, closed);
    }
  }

  function Names(fns: seq<string>): set<string> {
    set x | x in fns
  }

  /** The worklist: `entry` first, each name once, all of them reached. */
  ghost predicate Worklist(
    fns: seq<string>, calls: (string, string) -> bool, entry: string, order: seq<string>, seen: set<string>) {
    && order != [] && order[0] == entry && Distinct(order)
    && seen == Names(order) && |seen| == |order| && seen <= Names(fns)
    && forall f | f in order :: Reaches(Names(fns), calls, entry, f)
  }

  lemma WorklistGrows(
    fns: seq<string>, calls: (string, string) -> bool, entry: string, order: seq<string>, seen: set<string>,
    f: string, g: string)
    requires Worklist(fns, calls, entry, order, seen) && f in order && g in fns && g !in seen && calls(f, g)
    ensures Worklist(fns, calls, entry, order + [g], seen + {g})
  {
    ReachesStep(Names(fns), calls, entry, f, g);
  }

  /** The first `n` names, where `f` calls them, are in the list. */
  ghost predicate AllCalled(fns: seq<string>, calls: (string, string) -> bool, f: string, order: seq<string>, n: nat)
    requires n <= |fns|
  {
    forall k | 0 <= k < n && calls(f, fns[k]) :: fns[k] in order
  }

  ghost predicate ExpandedTo(fns: seq<string>, calls: (string, string) -> bool, order: seq<string>, i: nat) {
    forall k | 0 <= k < i && k < |order| :: AllCalled(fns, calls, order[k], order, |fns|)
  }

  /** One worklist step: every name the `i`-th function calls is appended, unless it is there. */
  method Expand(
    fns: seq<string>, calls: (string, string) -> bool, ghost entry: string, order0: seq<string>, seen0: set<string>,
    i: nat)
    returns (order: seq<string>, seen: set<string>)
    requires Worklist(fns, calls, entry, order0, seen0) && i < |order0| && ExpandedTo(fns, calls, order0, i)
    ensures Worklist(fns, calls, entry, order, seen) && order0 <= order && ExpandedTo(fns, calls, order, i + 1)
  {
    order, seen := order0, seen0;
    var cur := order[i];
    for j := 0 to |fns|
      invariant Worklist(fns, calls, entry, order, seen) && order0 <= order && AllCalled(fns, calls, cur, order, j)
    {
      if fns[j] !in seen && calls(cur, fns[j]) {
        WorklistGrows(fns, calls, entry, order, seen, cur, fns[j]);
        seen, order := seen + {fns[j]}, order + [fns[j]];
      }
    }
    forall k | 0 <= k < i ensures AllCalled(fns, calls, order[k], order, |fns|) {
      assert AllCalled(fns, calls, order0[k], order0, |fns|);
    }
  }

  /**
   * The functions `entry` reaches by name, breadth first: `entry` first, each once, all of
   * them and no other.
   */
  method Closure(fns: seq<string>, calls: (string, string) -> bool, entry: string) returns (order: seq<string>)
    ensures entry !in fns ==> order == []
    ensures entry in fns ==> order != [] && order[0] == entry && Distinct(order)
    ensures entry in fns ==> forall f :: f in order <==> Reaches(Names(fns), calls, entry, f)
  {
    if entry !in fns {
      return [];
    }
    order := [entry];
    var seen, i := {entry}, 0;
    assert Chain(Names(fns), calls, [entry], entry, entry);
    while i < |order|
      invariant i <= |order| && Worklist(fns, calls, entry, order, seen)
      invariant ExpandedTo(fns, calls, order, i)
      decreases |Names(fns)| - |order|, |order| - i
    {
      order, seen := Expand(fns, calls, entry, order, seen, i);
      i := i + 1;
      Bounded(fns, calls, entry, order, seen);
    }
    forall f | Reaches(Names(fns), calls, entry, f) ensures f in order {
      var path :| Chain(Names(fns), calls, path, entry, f);
      forall x, y | x in order && y in Names(fns) && calls(x, y) ensures y in order {
        var k :| 0 <= k < |order| && order[k] == x;
        assert AllCalled(fns, calls, order[k], order, |fns|);
        var j :| 0 <= j < |fns| && fns[j] == y;
      }
      ClosedHoldsChain(Names(fns), calls, path, entry, f, order);
    }
  }

  lemma Bounded(fns: seq<string>, calls: (string, string) -> bool, entry: string, order: seq<string>, seen: set<string>)
    requires Worklist(fns, calls, entry, order, seen)
    ensures |order| <= |Names(fns)|
  {
    SubsetSize(seen, Names(fns));
  }

  lemma {:induction false} SubsetSize(a: set<string>, b: set<string>)
    requires a <= b
    ensures |a| <= |b|
  {
    if a != {} {
      var x :| x in a;
      SubsetSize(a - {x}, b - {x});
    }
  }
}
