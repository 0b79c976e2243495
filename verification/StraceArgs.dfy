/** The bracket-aware argument splitter of `scripts/ci-trace.py`. */
module StraceArgs {
  import opened Basics
  import opened Whitespace
  import opened StraceLexer

  predicate Opens(c: char) { c == '{' || c == '[' || c == '(' || c == '<' }

  predicate Closes(c: char) { c == '}' || c == ']' || c == ')' || c == '>' }

  /** The last argument, kept only when it is not blank. */
  function Last(cur: string): seq<string> {
    if Strip(cur) != "" then [Strip(cur)] else []
  }

  function Cons(arg: string, rest: Result<seq<string>, LexError>): Result<seq<string>, LexError> {
    match rest
    case Err(e) => Err(e)
    case Ok(args) => Ok([arg] + args)
  }

  /** The arguments from index `i` on, `depth` brackets deep and with `cur` of the current one read. */
  function ArgsFrom(body: string, i: nat, depth: nat, cur: string): Result<seq<string>, LexError>
    decreases |body| - i
  {
    if i >= |body| then Ok(Last(cur))
    else
      var c := body[i];
      if c == '"' then
        match LexFrom(body, i + 1)
        case Err(e) => Err(e)
        case Ok(literal) => ArgsFrom(body, literal.end, depth, cur + body[i..literal.end])
      else if Opens(c) then ArgsFrom(body, i + 1, depth + 1, cur + [c])
      else if Closes(c) then (if depth == 0 then Ok(Last(cur)) else ArgsFrom(body, i + 1, depth - 1, cur + [c]))
      else if c == ',' && depth == 0 then Cons(Strip(cur), ArgsFrom(body, i + 1, 0, ""))
      else ArgsFrom(body, i + 1, depth, cur + [c])
  }

  function Prepend(args: seq<string>, rest: Result<seq<string>, LexError>): Result<seq<string>, LexError> {
    match rest
    case Err(e) => Err(e)
    case Ok(more) => Ok(args + more)
  }

  lemma PrependCons(args: seq<string>, arg: string, rest: Result<seq<string>, LexError>)
    ensures Prepend(args, Cons(arg, rest)) == Prepend(args + [arg], rest)
    ensures Prepend([], rest) == rest
  {
    if rest.Ok? {
      assert args + ([arg] + rest.value) == (args + [arg]) + rest.value;
      assert [] + rest.value == rest.value;
    }
  }

  /** `split_args`: one pass with a depth and the characters of the current argument. */
  method SplitArgs(body: string) returns (r: Result<seq<string>, LexError>)
    ensures r == ArgsFrom(body, 0, 0, "")
  {
    hide LexFrom, Strip;
    var args: seq<string>, depth: nat, cur, i := [], 0, "", 0;
    PrependCons([], "", ArgsFrom(body, 0, 0, ""));
    while i < |body|
      invariant i <= |body|
      invariant ArgsFrom(body, 0, 0, "") == Prepend(args, ArgsFrom(body, i, depth, cur))
      decreases |body| - i
    {
      var c := body[i];
      if c == '"' {
        var literal := CString(body, i);
        if literal.Err? {
          return Err(literal.error);
        }
        cur := cur + body[i..literal.value.end];
        i := literal.value.end;
        continue;
      }
      if Opens(c) {
        depth := depth + 1;
      } else if Closes(c) {
        if depth == 0 {
          break;
        }
        depth := depth - 1;
      } else if c == ',' && depth == 0 {
        PrependCons(args, Strip(cur), ArgsFrom(body, i + 1, 0, ""));
        args := args + [Strip(cur)];
        cur := "";
        i := i + 1;
        continue;
      }
      cur := cur + [c];
      i := i + 1;
    }
    if Strip(cur) != "" {
      args := args + [Strip(cur)];
    } else {
      assert args + [] == args;
    }
    r := Ok(args);
  }

  // ---- what strace prints as one argument ---------------------------------------------------

  type Printable = s: Spelled | CanPrint(s) && Unambiguous(s) witness []

  /** An argument: characters, string literals and bracketed groups, each followed by the rest. */
  datatype Arg =
    | Done
    | Char(c: char, rest: Arg)
    | Quoted(bytes: Printable, truncated: bool, rest: Arg)
    | Group(open: char, inner: Arg, close: char, rest: Arg)

  function LiteralText(bytes: Printable, truncated: bool): string {
    ['"'] + (Print(bytes) + (['"'] + (if truncated then DOTS else "")))
  }

  function ArgText(arg: Arg): string {
    match arg
    case Done => ""
    case Char(c, rest) => [c] + ArgText(rest)
    case Quoted(bytes, truncated, rest) => LiteralText(bytes, truncated) + ArgText(rest)
    case Group(open, inner, close, rest) => [open] + (ArgText(inner) + ([close] + ArgText(rest)))
  }

  /** Commas only inside a group; brackets only as groups; a literal that was not cut short is not
      followed by dots. */
  predicate Balanced(arg: Arg, grouped: bool) {
    match arg
    case Done => true
    case Char(c, rest) =>
      c != '"' && !Opens(c) && !Closes(c) && (c == ',' ==> grouped) && Balanced(rest, grouped)
    case Quoted(bytes, truncated, rest) =>
      Balanced(rest, grouped) && (!truncated ==> !StartsAt(ArgText(rest), 0, DOTS))
    case Group(open, inner, close, rest) =>
      Opens(open) && Closes(close) && Balanced(inner, true) && Balanced(rest, grouped)
  }

  lemma DotsOrNot(truncated: bool, rest: string)
    requires !truncated ==> !StartsAt(rest, 0, DOTS)
    ensures StartsAt((if truncated then DOTS else "") + rest, 0, DOTS) <==> truncated
  {
    assert !truncated ==> "" + rest == rest;
    assert truncated ==> (DOTS + rest)[0..3] == DOTS;
  }

  /** A literal is lexed whole, whatever argument text and separator follow it. */
  lemma LiteralWhole(body: string, i: nat, bytes: Printable, truncated: bool, rest: string)
    requires i <= |body| && body[i..] == LiteralText(bytes, truncated) + rest
    requires !truncated ==> !StartsAt(rest, 0, DOTS)
    ensures i < |body| && body[i] == '"'
    ensures LexFrom(body, i + 1) == Ok(Literal(BytesOf(bytes), i + |LiteralText(bytes, truncated)|, truncated))
  {
    hide StartsAt, Print, LexFrom;
    var more := (if truncated then DOTS else "") + rest;
    assert body[i..] == ['"'] + (Print(bytes) + (['"'] + more));
    Prefix(body, i, ['"'], Print(bytes) + (['"'] + more));
    PrintedLiteralReadsBack(body, i + 1, bytes, more);
    DotsOrNot(truncated, rest);
  }

  lemma NoDotsAfter(text: string, follow: string)
    requires !StartsAt(text, 0, DOTS) && (follow == "" || follow[0] != '.')
    ensures !StartsAt(text + follow, 0, DOTS)
  {
    var s := text + follow;
    assert |text| >= 3 ==> s[0..3] == text[0..3];
    assert |text| < 3 && follow != "" ==> s[|text|] == follow[0];
    assert |s| >= 3 && |text| < 3 ==> s[0..3][|text|] == s[|text|];
  }

  // One step of the splitter for each kind of item.

  lemma CharStep(body: string, i: nat, depth: nat, cur: string)
    requires i < |body| && body[i] != '"' && !Opens(body[i]) && !Closes(body[i]) && (body[i] == ',' ==> depth > 0)
    ensures ArgsFrom(body, i, depth, cur) == ArgsFrom(body, i + 1, depth, cur + [body[i]])
  {
  }

  lemma OpenStep(body: string, i: nat, depth: nat, cur: string)
    requires i < |body| && Opens(body[i])
    ensures ArgsFrom(body, i, depth, cur) == ArgsFrom(body, i + 1, depth + 1, cur + [body[i]])
  {
  }

  lemma CloseStep(body: string, i: nat, depth: nat, cur: string)
    requires i < |body| && Closes(body[i])
    ensures ArgsFrom(body, i, depth + 1, cur) == ArgsFrom(body, i + 1, depth, cur + [body[i]])
  {
  }

  lemma QuoteStep(body: string, i: nat, depth: nat, cur: string)
    requires i < |body| && body[i] == '"' && LexFrom(body, i + 1).Ok?
    ensures var end := LexFrom(body, i + 1).value.end;
            ArgsFrom(body, i, depth, cur) == ArgsFrom(body, end, depth, cur + body[i..end])
  {
    hide LexFrom;
  }

  lemma LiteralStep(body: string, i: nat, depth: nat, cur: string, bytes: Printable, truncated: bool, rest: string)
    requires i <= |body| && body[i..] == LiteralText(bytes, truncated) + rest
    requires !truncated ==> !StartsAt(rest, 0, DOTS)
    ensures ReadOver(body, i, depth, cur, LiteralText(bytes, truncated))
  {
    hide LexFrom, LiteralText, StartsAt, ArgsFrom;
    LiteralWhole(body, i, bytes, truncated, rest);
    Prefix(body, i, LiteralText(bytes, truncated), rest);
    QuoteStep(body, i, depth, cur);
  }

  lemma GroupPositions(body: string, i: nat, open: char, within: string, close: char, more: string, follow: string)
    requires i <= |body| && body[i..] == [open] + (within + ([close] + more)) + follow
    ensures i + 1 + |within| + 1 + |more| + |follow| == |body|
    ensures body[i] == open && body[i + 1..] == within + ([close] + (more + follow))
    ensures body[i + 1 + |within|] == close && body[i + 1 + |within| + 1..] == more + follow
  {
    assert body[i..] == [open] + (within + ([close] + (more + follow)));
    Prefix(body, i, [open], within + ([close] + (more + follow)));
    Prefix(body, i + 1, within, [close] + (more + follow));
    Prefix(body, i + 1 + |within|, [close], more + follow);
  }

  /** Reading `text` from `i` adds it to the current argument and leaves the depth as it was. */
  ghost predicate ReadOver(body: string, i: nat, depth: nat, cur: string, text: string) {
    i + |text| <= |body| && ArgsFrom(body, i, depth, cur) == ArgsFrom(body, i + |text|, depth, cur + text)
  }

  lemma ThenReadOver(body: string, i: nat, depth: nat, cur: string, text: string, more: string)
    requires ReadOver(body, i, depth, cur, text) && ReadOver(body, i + |text|, depth, cur + text, more)
    ensures ReadOver(body, i, depth, cur, text + more)
  {
    hide ArgsFrom;
    assert cur + text + more == cur + (text + more);
  }

  lemma GroupReadOver(body: string, i: nat, depth: nat, cur: string, open: char, within: string, close: char,
                      more: string)
    requires i + 1 + |within| + 1 <= |body| && body[i] == open && Opens(open)
    requires body[i + 1 + |within|] == close && Closes(close)
    requires ReadOver(body, i + 1, depth + 1, cur + [open], within)
    requires ReadOver(body, i + 2 + |within|, depth, cur + ([open] + within + [close]), more)
    ensures ReadOver(body, i, depth, cur, [open] + (within + ([close] + more)))
  {
    hide ArgsFrom;
    OpenStep(body, i, depth, cur);
    CloseStep(body, i + 1 + |within|, depth, cur + [open] + within);
    assert cur + [open] + within + [close] == cur + ([open] + within + [close]);
    assert cur + ([open] + within + [close]) + more == cur + ([open] + (within + ([close] + more)));
  }

  lemma Associates(a: string, b: string, c: string)
    ensures a + b + c == a + (b + c)
  {
  }

  lemma {:induction false} ReadsOver(body: string, i: nat, depth: nat, cur: string, arg: Arg, follow: string)
    requires Balanced(arg, depth > 0) && i <= |body|
    requires body[i..] == ArgText(arg) + follow && (follow == "" || follow[0] != '.')
    ensures ReadOver(body, i, depth, cur, ArgText(arg))
    decreases arg
  {
    hide ReadOver, LiteralText, StartsAt;
    match arg
    case Done =>
      NothingReadOver(body, i, depth, cur);
    case Char(c, rest) =>
      Associates([c], ArgText(rest), follow);
      Prefix(body, i, [c], ArgText(rest) + follow);
      CharReadOver(body, i, depth, cur);
      ReadsOver(body, i + 1, depth, cur + [c], rest, follow);
      ThenReadOver(body, i, depth, cur, [c], ArgText(rest));
    case Quoted(bytes, truncated, rest) =>
      var literal := LiteralText(bytes, truncated);
      Associates(literal, ArgText(rest), follow);
      Prefix(body, i, literal, ArgText(rest) + follow);
      if !truncated { NoDotsAfter(ArgText(rest), follow); }
      LiteralStep(body, i, depth, cur, bytes, truncated, ArgText(rest) + follow);
      ReadsOver(body, i + |literal|, depth, cur + literal, rest, follow);
      ThenReadOver(body, i, depth, cur, literal, ArgText(rest));
    case Group(open, inner, close, rest) =>
      var within, more := ArgText(inner), ArgText(rest);
      GroupPositions(body, i, open, within, close, more, follow);
      ReadsOver(body, i + 1, depth + 1, cur + [open], inner, [close] + (more + follow));
      ReadsOver(body, i + 2 + |within|, depth, cur + ([open] + within + [close]), rest, follow);
      GroupReadOver(body, i, depth, cur, open, within, close, more);
  }

  lemma NothingReadOver(body: string, i: nat, depth: nat, cur: string)
    requires i <= |body|
    ensures ReadOver(body, i, depth, cur, "")
  {
    hide ArgsFrom;
    assert cur + "" == cur;
  }

  lemma CharReadOver(body: string, i: nat, depth: nat, cur: string)
    requires i < |body| && body[i] != '"' && !Opens(body[i]) && !Closes(body[i]) && (body[i] == ',' ==> depth > 0)
    ensures ReadOver(body, i, depth, cur, [body[i]])
  {
    hide ArgsFrom;
    CharStep(body, i, depth, cur);
  }

  // ---- argument lists ---------------------------------------------------------------------

  predicate AllBalanced(args: seq<Arg>) { forall i :: 0 <= i < |args| ==> Balanced(args[i], false) }

  /** The arguments joined by commas, as strace writes them. */
  function Listed(args: seq<Arg>): string
    requires AllBalanced(args)
  {
    if args == [] then ""
    else if |args| == 1 then ArgText(args[0])
    else ArgText(args[0]) + ("," + Listed(args[1..]))
  }

  /** Each argument stripped; a blank last one is none. */
  function Stripped(args: seq<Arg>): seq<string>
    requires AllBalanced(args)
  {
    if args == [] then []
    else if |args| == 1 then Last(ArgText(args[0]))
    else [Strip(ArgText(args[0]))] + Stripped(args[1..])
  }

  lemma FirstArg(body: string, i: nat, arg: Arg, follow: string)
    requires Balanced(arg, false) && i <= |body|
    requires body[i..] == ArgText(arg) + follow && (follow == "" || follow[0] != '.')
    ensures i + |ArgText(arg)| <= |body| && body[i + |ArgText(arg)|..] == follow
    ensures ArgsFrom(body, i, 0, "") == ArgsFrom(body, i + |ArgText(arg)|, 0, ArgText(arg))
  {
    hide ArgsFrom, ArgText, Balanced;
    ReadsOver(body, i, 0, "", arg, follow);
    Prefix(body, i, ArgText(arg), follow);
    assert "" + ArgText(arg) == ArgText(arg);
  }

  lemma ListedSteps(args: seq<Arg>)
    requires AllBalanced(args)
    ensures args == [] ==> Listed(args) == "" && Stripped(args) == []
    ensures |args| == 1 ==> Listed(args) == ArgText(args[0]) && Stripped(args) == Last(ArgText(args[0]))
    ensures |args| > 1 ==> Listed(args) == ArgText(args[0]) + ("," + Listed(args[1..]))
    ensures |args| > 1 ==> Stripped(args) == [Strip(ArgText(args[0]))] + Stripped(args[1..])
  {
    hide ArgText, Balanced, Strip;
  }

  lemma EndStep(body: string, i: nat, cur: string, tail: string)
    requires i <= |body| && body[i..] == tail && (tail == "" || Closes(tail[0]))
    ensures ArgsFrom(body, i, 0, cur) == Ok(Last(cur))
  {
    assert tail != "" ==> body[i] == body[i..][0];
  }

  lemma CommaStep(body: string, i: nat, cur: string)
    requires i < |body| && body[i] == ','
    ensures ArgsFrom(body, i, 0, cur) == Cons(Strip(cur), ArgsFrom(body, i + 1, 0, ""))
  {
    hide LexFrom, Strip;
  }

  /** The splitter undoes the printer: over comma-joined arguments ended by a closing bracket or by
      the end of an unfinished line, it returns exactly the arguments, strings and groups whole. */
  lemma {:induction false} SplitUndoesJoin(body: string, i: nat, args: seq<Arg>, tail: string)
    requires AllBalanced(args) && i <= |body| && body[i..] == Listed(args) + tail
    requires tail == "" || Closes(tail[0])
    ensures ArgsFrom(body, i, 0, "") == Ok(Stripped(args))
    decreases |args|
  {
    hide Balanced, ArgText, Strip, ArgsFrom, Listed, Stripped;
    ListedSteps(args);
    if args == [] {
      assert Listed(args) + tail == tail;
      StripNothing();
      EndStep(body, i, "", tail);
    } else {
      var text := ArgText(args[0]);
      var follow := if |args| == 1 then tail else "," + (Listed(args[1..]) + tail);
      if |args| > 1 { Reassociate(text, ",", Listed(args[1..]), tail); }
      FirstArg(body, i, args[0], follow);
      if |args| == 1 {
        EndStep(body, i + |text|, text, tail);
      } else {
        AfterComma(body, i + |text|, Listed(args[1..]) + tail);
        CommaStep(body, i + |text|, text);
        SplitUndoesJoin(body, i + |text| + 1, args[1..], tail);
      }
    }
  }

  lemma Reassociate(a: string, b: string, c: string, d: string)
    ensures a + (b + c) + d == a + (b + (c + d))
  {
  }

  lemma AfterComma(body: string, j: nat, rest: string)
    requires j <= |body| && body[j..] == "," + rest
    ensures j < |body| && body[j] == ',' && body[j + 1..] == rest
  {
    assert body[j] == body[j..][0];
    assert body[j + 1..] == body[j..][1..];
  }

  lemma StripNothing()
    ensures Strip("") == ""
  {
  }
}
