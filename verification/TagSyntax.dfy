/**
 The `sqlh` tag mini-language of entity_tags.go: directives separated by ';', each a name, a ':'
 and either one value (for `field`) or phases separated by ',', with white space allowed around
 every token.
 */
module TagSyntax {
  import opened Text
  import opened Wrappers

  const FIELD := "field"

  datatype Directive = Directive(name: string, phases: seq<string>, value: string)

  datatype TagError =
    | EmptyDirective
    | InvalidDirective(directive: string)
    | FieldNeedsName
    | NoPhase(name: string)
    | EmptyPhase(name: string)
    | DuplicateField

  /** `strings.Cut(s, sep)`. */
  datatype CutResult = CutResult(before: string, after: string, found: bool)

  function Cut(s: string, sep: char): CutResult {
    if s == "" then CutResult("", "", false)
    else if s[0] == sep then CutResult("", s[1..], true)
    else
      var rest := Cut(s[1..], sep);
      CutResult([s[0]] + rest.before, rest.after, rest.found)
  }

  // ----- specification of the parser ---------------------------------------------------------

  function TrimAll(parts: seq<string>): seq<string> {
    seq(|parts|, i requires 0 <= i < |parts| => TrimSpace(parts[i]))
  }

  function ParseDirective(directive: string): Result<Directive, TagError> {
    var cut := Cut(directive, ':');
    if !cut.found then Err(InvalidDirective(directive))
    else
      var name := TrimSpace(cut.before);
      var valuesRaw := TrimSpace(cut.after);
      if name == "" then Err(InvalidDirective(directive))
      else if name == FIELD then
        if valuesRaw == "" then Err(FieldNeedsName) else Ok(Directive(name, [], valuesRaw))
      else if valuesRaw == "" then Err(NoPhase(name))
      else
        var phases := TrimAll(Split(valuesRaw, ','));
        if "" in phases then Err(EmptyPhase(name)) else Ok(Directive(name, phases, ""))
  }

  function ParseDirectives(raws: seq<string>, fieldSeen: bool): Result<seq<Directive>, TagError> {
    if raws == [] then Ok([])
    else
      var directive := TrimSpace(raws[0]);
      if directive == "" then Err(EmptyDirective)
      else
        var parsed :- ParseDirective(directive);
        if parsed.name == FIELD && fieldSeen then Err(DuplicateField)
        else Prepend([parsed], ParseDirectives(raws[1..], fieldSeen || parsed.name == FIELD))
  }

  function Parse(tagValue: string): Result<seq<Directive>, TagError> {
    if tagValue == "" then Ok([]) else ParseDirectives(Split(tagValue, ';'), false)
  }

  // ----- the parser --------------------------------------------------------------------------

  method ParseSqlhTagDirective(directive: string) returns (result: Result<Directive, TagError>)
    ensures result == ParseDirective(directive)
  {
    var cut := Cut(directive, ':');
    if !cut.found {
      return Err(InvalidDirective(directive));
    }
    var name := TrimSpace(cut.before);
    var valuesRaw := TrimSpace(cut.after);
    if name == "" {
      return Err(InvalidDirective(directive));
    }
    if name == FIELD {
      if valuesRaw == "" {
        return Err(FieldNeedsName);
      }
      return Ok(Directive(name, [], valuesRaw));
    }
    if valuesRaw == "" {
      return Err(NoPhase(name));
    }
    var phases := Split(valuesRaw, ',');
    ghost var raw := phases;
    for i := 0 to |phases|
      invariant |phases| == |raw|
      invariant phases[..i] == TrimAll(raw)[..i] && phases[i..] == raw[i..]
      invariant "" !in phases[..i]
    {
      var phase := TrimSpace(phases[i]);
      assert phases[i] == phases[i..][0] == raw[i];
      assert phase == TrimAll(raw)[i];
      if phase == "" {
        assert TrimAll(raw)[i] in TrimAll(raw);
        return Err(EmptyPhase(name));
      }
      phases := phases[i := phase];
    }
    assert phases == phases[..|phases|] == TrimAll(raw);
    return Ok(Directive(name, phases, ""));
  }

  method ParseSqlhTagValues(tagValue: string) returns (result: Result<seq<Directive>, TagError>)
    ensures result == Parse(tagValue)
  {
    if tagValue == "" {
      return Ok([]);
    }
    var directives: seq<Directive>, fieldSeen := [], false;
    var raws := Split(tagValue, ';');
    assert raws[0..] == raws;
    PrependTwice([], [], ParseDirectives(raws, false));
    for i := 0 to |raws|
      invariant Parse(tagValue) == Prepend(directives, ParseDirectives(raws[i..], fieldSeen))
    {
      assert raws[i..][0] == raws[i] && raws[i..][1..] == raws[i + 1..];
      var directive := TrimSpace(raws[i]);
      if directive == "" {
        return Err(EmptyDirective);
      }
      var parsed := ParseSqlhTagDirective(directive);
      if parsed.Err? {
        return Err(parsed.error);
      }
      if parsed.value.name == FIELD {
        if fieldSeen {
          return Err(DuplicateField);
        }
        fieldSeen := true;
      }
      PrependTwice(directives, [parsed.value], ParseDirectives(raws[i + 1..], fieldSeen));
      directives := directives + [parsed.value];
    }
    assert raws[|raws|..] == [];
    assert directives + [] == directives;
    return Ok(directives);
  }

  // ----- printing ----------------------------------------------------------------------------

  /** A token with the white space written around it. */
  datatype Token = Token(left: string, text: string, right: string) {
    function Written(): string { left + text + right }

    ghost predicate Valid() {
      AllSpace(left) && AllSpace(right) && Trimmed(text) && text != ""
    }
  }

  /** A directive as written: for `field` exactly one body token, its value. */
  datatype Written = Written(name: Token, body: seq<Token>) {
    ghost predicate Valid() {
      && name.Valid() && Free(name.text, ':') && Free(name.text, ';')
      && |body| >= 1
      && (forall i :: 0 <= i < |body| ==> body[i].Valid() && Free(body[i].text, ';'))
      && (if name.text == FIELD then |body| == 1
          else forall i :: 0 <= i < |body| ==> Free(body[i].text, ','))
    }

    function Text(): string {
      name.Written() + ":" + Join(Spell(body), ',')
    }

    function Denotes(): Directive
      requires |body| >= 1
    {
      if name.text == FIELD then Directive(name.text, [], body[0].text)
      else Directive(name.text, Bare(body), "")
    }
  }

  function Spell(tokens: seq<Token>): seq<string> {
    seq(|tokens|, i requires 0 <= i < |tokens| => tokens[i].Written())
  }

  function Bare(tokens: seq<Token>): seq<string> {
    seq(|tokens|, i requires 0 <= i < |tokens| => tokens[i].text)
  }

  function Texts(ws: seq<Written>): seq<string> {
    seq(|ws|, i requires 0 <= i < |ws| => ws[i].Text())
  }

  function Denotations(ws: seq<Written>): seq<Directive>
    requires forall i :: 0 <= i < |ws| ==> |ws[i].body| >= 1
  {
    seq(|ws|, i requires 0 <= i < |ws| => ws[i].Denotes())
  }

  ghost predicate AllValid(ws: seq<Written>) {
    forall i :: 0 <= i < |ws| ==> ws[i].Valid()
  }

  function Print(ws: seq<Written>): string {
    Join(Texts(ws), ';')
  }

  // ----- padding does not change meaning -----------------------------------------------------

  lemma TrimIgnoresPad(left: string, s: string, right: string)
    requires AllSpace(left) && AllSpace(right)
    ensures TrimSpace(left + s + right) == TrimSpace(s)
  {
    var l, r := TrimSplits(s);
    assert left + s + right == (left + l) + TrimSpace(s) + (r + right);
    TrimPadded(left + l, TrimSpace(s), r + right);
  }

  lemma {:induction false} CutPrefix(head: string, rest: string, sep: char)
    requires Free(head, sep)
    ensures Cut(head + [sep] + rest, sep) == CutResult(head, rest, true)
  {
    var s := head + [sep] + rest;
    if head == "" {
      assert s[1..] == rest;
    } else {
      assert s[1..] == head[1..] + [sep] + rest;
      CutPrefix(head[1..], rest, sep);
      assert [head[0]] + head[1..] == head;
    }
  }

  lemma {:induction false} CutSplits(s: string, sep: char)
    ensures Cut(s, sep).found <==> sep in s
    ensures Cut(s, sep).found ==> s == Cut(s, sep).before + [sep] + Cut(s, sep).after && Free(Cut(s, sep).before, sep)
  {
    if s != "" && s[0] != sep {
      CutSplits(s[1..], sep);
    }
  }

  /** What a raw directive says, trimming each token once and the whole never. */
  function Meaning(raw: string): Option<Directive> {
    var cut := Cut(raw, ':');
    if !cut.found || TrimSpace(cut.before) == "" then None
    else if TrimSpace(cut.before) == FIELD then
      if TrimSpace(cut.after) == "" then None else Some(Directive(FIELD, [], TrimSpace(cut.after)))
    else
      var phases := TrimAll(Split(cut.after, ','));
      if "" in phases then None else Some(Directive(TrimSpace(cut.before), phases, ""))
  }

  lemma {:induction false} SplitLeftPad(pad: string, s: string, sep: char)
    requires Free(pad, sep)
    ensures Split(pad + s, sep) == [pad + Split(s, sep)[0]] + Split(s, sep)[1..]
  {
    if pad == "" {
      assert pad + s == s;
      assert pad + Split(s, sep)[0] == Split(s, sep)[0];
    } else {
      assert (pad + s)[1..] == pad[1..] + s;
      SplitLeftPad(pad[1..], s, sep);
      assert [pad[0]] + (pad[1..] + Split(s, sep)[0]) == pad + Split(s, sep)[0];
    }
  }

  lemma {:induction false} JoinRightPad(init: seq<string>, last: string, pad: string, sep: char)
    ensures Join(init + [last + pad], sep) == Join(init + [last], sep) + pad
  {
    if init == [] {
      assert init + [last] == [last] && init + [last + pad] == [last + pad];
    } else {
      JoinRightPad(init[1..], last, pad, sep);
      assert (init + [last])[1..] == init[1..] + [last];
      assert (init + [last + pad])[1..] == init[1..] + [last + pad];
      PadLast(init[0] + [sep], Join(init[1..] + [last], sep), pad);
    }
  }

  lemma PadLast(a: string, b: string, pad: string)
    ensures a + (b + pad) == (a + b) + pad
  {
  }

  lemma SplitRightPad(s: string, pad: string, sep: char)
    requires Free(pad, sep)
    ensures var parts := Split(s, sep);
            Split(s + pad, sep) == parts[..|parts| - 1] + [parts[|parts| - 1] + pad]
  {
    hide Split, Join;
    var parts := Split(s, sep);
    JoinSplit(s, sep);
    var init, last := parts[..|parts| - 1], parts[|parts| - 1];
    assert parts == init + [last];
    JoinRightPad(init, last, pad, sep);
    SplitJoin(init + [last + pad], sep);
  }

  lemma SpaceIsFree(pad: string, sep: char)
    requires AllSpace(pad) && !IsSpace(sep)
    ensures Free(pad, sep)
  {
  }

  lemma TrimAllPad(left: string, s: string, right: string, sep: char)
    requires AllSpace(left) && AllSpace(right) && !IsSpace(sep)
    ensures TrimAll(Split(left + s + right, sep)) == TrimAll(Split(s, sep))
  {
    hide Split, TrimSpace, AllSpace;
    SpaceIsFree(left, sep);
    SpaceIsFree(right, sep);
    SplitLeftPad(left, s + right, sep);
    SplitRightPad(s, right, sep);
    assert left + s + right == left + (s + right);
    var parts, padded := Split(s, sep), Split(left + s + right, sep);
    forall i | 0 <= i < |parts| ensures TrimSpace(padded[i]) == TrimSpace(parts[i]) {
      var l := if i == 0 then left else "";
      var r := if i == |parts| - 1 then right else "";
      assert padded[i] == l + parts[i] + r;
      TrimIgnoresPad(l, parts[i], r);
    }
  }

  lemma CutPadded(left: string, s: string, right: string)
    requires AllSpace(left) && AllSpace(right)
    ensures Cut(s, ':').found ==>
      Cut(left + s + right, ':') == CutResult(left + Cut(s, ':').before, Cut(s, ':').after + right, true)
    ensures !Cut(s, ':').found ==> !Cut(left + s + right, ':').found
  {
    CutSplits(s, ':');
    CutSplits(left + s + right, ':');
    SpaceIsFree(left, ':');
    SpaceIsFree(right, ':');
    var cut := Cut(s, ':');
    if cut.found {
      PadMiddle(left, cut.before, ":", cut.after, right);
      assert s == cut.before + ":" + cut.after;
      CutPrefix(left + cut.before, cut.after + right, ':');
    } else {
      assert ':' !in left + s + right;
    }
  }

  lemma PadMiddle(a: string, b: string, c: string, d: string, e: string)
    ensures a + (b + c + d) + e == (a + b) + c + (d + e)
  {
  }

  lemma TrimAllTrimmed(s: string)
    ensures TrimAll(Split(TrimSpace(s), ',')) == TrimAll(Split(s, ','))
  {
    var l, r := TrimSplits(s);
    TrimAllPad(l, TrimSpace(s), r, ',');
  }

  lemma CutIgnoresPad(raw: string)
    ensures Cut(TrimSpace(raw), ':').found == Cut(raw, ':').found
    ensures Cut(raw, ':').found ==>
      var trimmed, cut := Cut(TrimSpace(raw), ':'), Cut(raw, ':');
      && TrimSpace(trimmed.before) == TrimSpace(cut.before) && TrimSpace(trimmed.after) == TrimSpace(cut.after)
      && TrimAll(Split(TrimSpace(trimmed.after), ',')) == TrimAll(Split(cut.after, ','))
  {
    var left, right := TrimSplits(raw);
    var trimmed := Cut(TrimSpace(raw), ':');
    CutPadded(left, TrimSpace(raw), right);
    if trimmed.found {
      TrimIgnoresPad(left, trimmed.before, "");
      assert left + trimmed.before + "" == left + trimmed.before;
      TrimIgnoresPad("", trimmed.after, right);
      assert "" + trimmed.after + right == trimmed.after + right;
      TrimAllTrimmed(trimmed.after);
      TrimAllPad("", trimmed.after, right, ',');
    }
  }

  /** The parser, which trims the directive before cutting it, finds exactly the meaning. */
  lemma ParseFindsMeaning(raw: string, d: Directive)
    ensures (TrimSpace(raw) != "" && ParseDirective(TrimSpace(raw)) == Ok(d)) <==> Meaning(raw) == Some(d)
  {
    CutIgnoresPad(raw);
    assert TrimAll(Split("", ','))[0] == "";
  }

  ghost predicate OneField(ds: seq<Directive>) {
    forall i, j :: 0 <= i < j < |ds| ==> ds[i].name != FIELD || ds[j].name != FIELD
  }

  ghost predicate NoField(ds: seq<Directive>) {
    forall i :: 0 <= i < |ds| ==> ds[i].name != FIELD
  }

  lemma ParseStep(raws: seq<string>, fieldSeen: bool, d: Directive)
    requires raws != [] && Meaning(raws[0]) == Some(d)
    requires d.name == FIELD ==> !fieldSeen
    ensures ParseDirectives(raws, fieldSeen) == Prepend([d], ParseDirectives(raws[1..], fieldSeen || d.name == FIELD))
  {
    ParseFindsMeaning(raws[0], d);
  }

  lemma ParseStepBack(raws: seq<string>, fieldSeen: bool) returns (d: Directive)
    requires raws != [] && ParseDirectives(raws, fieldSeen).Ok?
    ensures Meaning(raws[0]) == Some(d) && (d.name == FIELD ==> !fieldSeen)
    ensures ParseDirectives(raws, fieldSeen) == Prepend([d], ParseDirectives(raws[1..], fieldSeen || d.name == FIELD))
  {
    d := ParseDirective(TrimSpace(raws[0])).value;
    ParseFindsMeaning(raws[0], d);
  }

  lemma {:induction false} ParseMeanings(raws: seq<string>, ds: seq<Directive>, fieldSeen: bool)
    requires |raws| == |ds| && OneField(ds) && (fieldSeen ==> NoField(ds))
    requires forall i :: 0 <= i < |raws| ==> Meaning(raws[i]) == Some(ds[i])
    ensures ParseDirectives(raws, fieldSeen) == Ok(ds)
  {
    if raws != [] {
      ParseStep(raws, fieldSeen, ds[0]);
      ParseMeanings(raws[1..], ds[1..], fieldSeen || ds[0].name == FIELD);
      assert ds == [ds[0]] + ds[1..];
    }
  }

  lemma {:induction false} MeaningsParsed(raws: seq<string>, fieldSeen: bool)
    requires ParseDirectives(raws, fieldSeen).Ok?
    ensures var ds := ParseDirectives(raws, fieldSeen).value;
            && |raws| == |ds| && OneField(ds) && (fieldSeen ==> NoField(ds))
            && forall i :: 0 <= i < |raws| ==> Meaning(raws[i]) == Some(ds[i])
  {
    if raws != [] {
      var d := ParseStepBack(raws, fieldSeen);
      MeaningsParsed(raws[1..], fieldSeen || d.name == FIELD);
    }
  }

  // ----- round trip --------------------------------------------------------------------------

  lemma {:induction false} FreeJoin(parts: seq<string>, sep: char, c: char)
    requires AllFree(parts, c) && sep != c
    ensures Free(Join(parts, sep), c)
  {
    if |parts| > 1 {
      FreeJoin(parts[1..], sep, c);
    }
  }

  lemma WrittenMeaning(w: Written)
    requires w.Valid()
    ensures Meaning(w.Text()) == Some(w.Denotes())
    ensures Free(w.Text(), ';')
  {
    var body := Join(Spell(w.body), ',');
    SpaceIsFree(w.name.left, ':'); SpaceIsFree(w.name.right, ':');
    SpaceIsFree(w.name.left, ';'); SpaceIsFree(w.name.right, ';');
    CutPrefix(w.name.Written(), body, ':');
    TrimPadded(w.name.left, w.name.text, w.name.right);
    forall i | 0 <= i < |w.body|
      ensures Free(Spell(w.body)[i], ';') && TrimSpace(Spell(w.body)[i]) == w.body[i].text
      ensures w.name.text != FIELD ==> Free(Spell(w.body)[i], ',')
    {
      var token := w.body[i];
      TrimPadded(token.left, token.text, token.right);
      SpaceIsFree(token.left, ';'); SpaceIsFree(token.right, ';');
      SpaceIsFree(token.left, ','); SpaceIsFree(token.right, ',');
    }
    FreeJoin(Spell(w.body), ',', ';');
    if w.name.text != FIELD {
      SplitJoin(Spell(w.body), ',');
      assert TrimAll(Spell(w.body)) == Bare(w.body);
    }
  }

  /** Round trip: any valid list of directives, however it is spaced, parses to itself. */
  lemma PrintParse(ws: seq<Written>)
    requires |ws| >= 1 && AllValid(ws) && OneField(Denotations(ws))
    ensures Parse(Print(ws)) == Ok(Denotations(ws))
  {
    forall i | 0 <= i < |ws|
      ensures Free(Texts(ws)[i], ';') && Meaning(Texts(ws)[i]) == Some(Denotations(ws)[i])
    {
      WrittenMeaning(ws[i]);
    }
    SplitJoin(Texts(ws), ';');
    ParseMeanings(Texts(ws), Denotations(ws), false);
    assert |Texts(ws)[0]| >= 1 && Texts(ws)[0] != "";
  }

  lemma {:induction false} Tokenize(parts: seq<string>) returns (tokens: seq<Token>)
    requires "" !in TrimAll(parts)
    ensures Spell(tokens) == parts && Bare(tokens) == TrimAll(parts)
    ensures forall i :: 0 <= i < |tokens| ==> tokens[i].Valid()
  {
    if parts == [] {
      tokens := [];
    } else {
      assert TrimAll(parts)[0] in TrimAll(parts);
      forall x | x in TrimAll(parts[1..]) ensures x in TrimAll(parts) {
        var k :| 0 <= k < |parts| - 1 && TrimAll(parts[1..])[k] == x;
        assert TrimAll(parts)[k + 1] == x;
      }
      var left, right := TrimSplits(parts[0]);
      var rest := Tokenize(parts[1..]);
      tokens := [Token(left, TrimSpace(parts[0]), right)] + rest;
      assert Spell(tokens) == [parts[0]] + Spell(rest);
      assert Bare(tokens) == [TrimSpace(parts[0])] + Bare(rest);
      assert TrimAll(parts) == [TrimSpace(parts[0])] + TrimAll(parts[1..]);
    }
  }

  /** Every raw text with a meaning is some directive written with some spacing. */
  lemma WriteMeaning(raw: string) returns (w: Written)
    requires Meaning(raw).Some? && Free(raw, ';')
    ensures w.Valid() && w.Text() == raw && w.Denotes() == Meaning(raw).value
  {
    var cut := Cut(raw, ':');
    CutSplits(raw, ':');
    var left, right := TrimSplits(cut.before);
    var name := Token(left, TrimSpace(cut.before), right);
    if name.text == FIELD {
      var l, r := TrimSplits(cut.after);
      w := Written.Written(name, [Token(l, TrimSpace(cut.after), r)]);
    } else {
      JoinSplit(cut.after, ',');
      var tokens := Tokenize(Split(cut.after, ','));
      assert |Spell(tokens)| == |tokens|;
      w := Written.Written(name, tokens);
      forall i | 0 <= i < |tokens| ensures Free(tokens[i].text, ';') && Free(tokens[i].text, ',') {
        var part := Split(cut.after, ',')[i];
        assert Spell(tokens)[i] == part;
        FreeJoinPart(Split(cut.after, ','), ',', ';', i);
        assert part == tokens[i].left + tokens[i].text + tokens[i].right;
      }
    }
  }

  lemma {:induction false} FreeJoinPart(parts: seq<string>, sep: char, c: char, i: nat)
    requires Free(Join(parts, sep), c) && i < |parts|
    ensures Free(parts[i], c)
  {
    if |parts| > 1 {
      var tail := Join(parts[1..], sep);
      assert forall x :: x in parts[0] || x in tail ==> x in parts[0] + [sep] + tail;
      if i > 0 {
        FreeJoinPart(parts[1..], sep, c, i - 1);
      }
    }
  }

  lemma WriteAll(raws: seq<string>) returns (ws: seq<Written>)
    requires AllFree(raws, ';') && forall i :: 0 <= i < |raws| ==> Meaning(raws[i]).Some?
    ensures |ws| == |raws| && AllValid(ws) && Texts(ws) == raws
    ensures forall i :: 0 <= i < |raws| ==> Meaning(raws[i]) == Some(ws[i].Denotes())
  {
    ws := [];
    for n := 0 to |raws|
      invariant |ws| == n && AllValid(ws)
      invariant forall i :: 0 <= i < n ==> ws[i].Text() == raws[i] && Meaning(raws[i]) == Some(ws[i].Denotes())
    {
      var w := WriteMeaning(raws[n]);
      ws := ws + [w];
    }
  }

  /** Completeness: every accepted non-empty tag is the printed form of some valid list. */
  lemma ParsePrint(tagValue: string) returns (ws: seq<Written>)
    requires tagValue != "" && Parse(tagValue).Ok?
    ensures |ws| >= 1 && AllValid(ws) && OneField(Denotations(ws))
    ensures Print(ws) == tagValue && Denotations(ws) == Parse(tagValue).value
  {
    JoinSplit(tagValue, ';');
    var raws := Split(tagValue, ';');
    MeaningsParsed(raws, false);
    ws := WriteAll(raws);
    assert Denotations(ws) == Parse(tagValue).value;
  }

  /** The accepted non-empty tags are exactly the printed forms of valid directive lists. */
  lemma AcceptsExactlyPrinted(tagValue: string)
    ensures Parse(tagValue).Ok? <==>
      || tagValue == ""
      || exists ws: seq<Written> ::
           |ws| >= 1 && AllValid(ws) && OneField(Denotations(ws)) && Print(ws) == tagValue
  {
    if tagValue != "" && Parse(tagValue).Ok? {
      var ws := ParsePrint(tagValue);
    }
    forall ws: seq<Written> | |ws| >= 1 && AllValid(ws) && OneField(Denotations(ws)) && Print(ws) == tagValue
      ensures Parse(tagValue).Ok?
    {
      PrintParse(ws);
    }
  }

  // ----- normal form -------------------------------------------------------------------------

  function Compact(text: string): Token {
    Token("", text, "")
  }

  /** The directive written without any padding. */
  function Canonical(d: Directive): Written {
    Written.Written(Compact(d.name),
      if d.name == FIELD then [Compact(d.value)]
      else seq(|d.phases|, i requires 0 <= i < |d.phases| => Compact(d.phases[i])))
  }

  function PrintDirectives(ds: seq<Directive>): string {
    Print(seq(|ds|, i requires 0 <= i < |ds| => Canonical(ds[i])))
  }

  lemma CanonicalOfValid(w: Written)
    requires w.Valid()
    ensures Canonical(w.Denotes()).Valid() && Canonical(w.Denotes()).Denotes() == w.Denotes()
  {
  }

  /** Printing what was parsed, without padding, parses back to the same directives: one
      parse-print pass is a fixed point. */
  lemma Normalizes(tagValue: string)
    requires Parse(tagValue).Ok?
    ensures Parse(PrintDirectives(Parse(tagValue).value)) == Parse(tagValue)
  {
    if tagValue != "" {
      var ws := ParsePrint(tagValue);
      var ds := Denotations(ws);
      var cs := seq(|ds|, i requires 0 <= i < |ds| => Canonical(ds[i]));
      forall i | 0 <= i < |ws|
        ensures cs[i].Valid() && cs[i].name.text == ws[i].name.text && cs[i].Denotes() == ws[i].Denotes()
      {
        CanonicalOfValid(ws[i]);
      }
      PrintParse(cs);
      assert Denotations(cs) == ds;
    }
  }
}
