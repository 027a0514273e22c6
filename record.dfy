/**
 * The pasted one-line report record read by the lay-staking pass of
 * output.py: `name | ... Model: x% ... LiveOdds: y ...`.  The two fields are
 * found with `re.search` on the text after the first `|`:
 *   `Model[:%]?\s*([0-9]+(?:\.[0-9]+)?)%`   and
 *   `LiveOdds[:]?[\s]*([0-9]+(?:\.[0-9]+)?)`.
 * A pattern is decided at one position by a greedy scan of the text from
 * there on (backtracking into these patterns never turns a failure into a
 * match or changes the captured number), and `re.search` by the leftmost
 * position where that scan succeeds.
 */
module Record {
  import opened Wrappers
  import opened Text

  const ModelTag: string := "Model"
  const ModelSeparators: set<char> := {':', '%'}
  const OddsTag: string := "LiveOdds"
  const OddsSeparators: set<char> := {':'}

  /** The optional one-character group after a tag: empty, or one character of `seps`. */
  predicate IsSeparator(sep: string, seps: set<char>) {
    sep == [] || (|sep| == 1 && sep[0] in seps)
  }

  /** Separator characters never begin whitespace or a numeral, so the optional group is unambiguous. */
  predicate Distinct(seps: set<char>) {
    forall c :: c in seps ==> !IsSpace(c) && !IsDigit(c)
  }

  /** `tag sep ws numeral` as it is written. */
  function Token(tag: string, sep: string, ws: string, n: Numeral): string {
    tag + sep + ws + Spell(n)
  }

  /** The optional separator group at the start of `u`: its first character when that is one of `seps`. */
  function SeparatorOf(u: string, seps: set<char>): (sep: string)
    ensures IsSeparator(sep, seps) && |sep| <= |u| && u == sep + u[|sep|..]
  {
    if u != [] && u[0] in seps then
      SplitAt(u, 1);
      u[..1]
    else
      []
  }

  /**
   * Matches `tag[seps]?\s*[0-9]+(?:\.[0-9]+)?` at the start of `t`,
   * returning the numeral and the text that follows it.
   */
  function TaggedNumeral(t: string, tag: string, seps: set<char>): (r: Option<(Numeral, string)>)
    ensures r.Some? ==> WellFormed(r.value.0) && Ends(r.value.1, r.value.0)
  {
    if !(tag <= t) then None
    else
      var u := t[|tag|..];
      var v := u[|SeparatorOf(u, seps)|..];
      ScanNumeral(Span(v, Space).1)
  }

  /** The pieces read one after another make up a token followed by the rest. */
  lemma Chain(t: string, tag: string, u: string, sep: string, v: string, ws: string, x: string, n: Numeral, rest: string)
    requires t == tag + u && u == sep + v && v == ws + x && x == Spell(n) + rest
    ensures t == Token(tag, sep, ws, n) + rest
  {
    Regroup(tag, sep, ws, Spell(n), rest);
  }

  /** What `TaggedNumeral` accepts is a written token followed by the returned rest. */
  lemma TaggedNumeralSound(t: string, tag: string, seps: set<char>)
    requires TaggedNumeral(t, tag, seps).Some?
    ensures var (n, rest) := TaggedNumeral(t, tag, seps).value;
            exists sep, ws :: IsSeparator(sep, seps) && All(ws, Space) && t == Token(tag, sep, ws, n) + rest
  {
    var p := TaggedNumeral(t, tag, seps).value;
    var u := t[|tag|..];
    var sep := SeparatorOf(u, seps);
    var v := u[|sep|..];
    var sp := Span(v, Space);
    PrefixSplit(tag, t);
    Chain(t, tag, u, sep, v, sp.0, sp.1, p.0, p.1);
    assert IsSeparator(sep, seps) && All(sp.0, Space);
  }

  /** A written token is matched at its first character and yields its own numeral and rest. */
  lemma TaggedNumeralComplete(tag: string, seps: set<char>, sep: string, ws: string, n: Numeral, rest: string)
    requires Distinct(seps) && IsSeparator(sep, seps) && All(ws, Space) && WellFormed(n) && Ends(rest, n)
    ensures TaggedNumeral(Token(tag, sep, ws, n) + rest, tag, seps) == Some((n, rest))
  {
    var t := Token(tag, sep, ws, n) + rest;
    var x := Spell(n) + rest;
    var v := ws + x;
    var u := sep + v;
    Regroup(tag, sep, ws, Spell(n), rest);
    assert t == tag + u;
    assert tag <= t && t[|tag|..] == u;
    SeparatorOfToken(seps, sep, ws, x, n);
    assert x != [] && Stops(x, Space) by {
      assert x[0] == n.whole[0] && IsDigit(n.whole[0]);
      DigitNotSpace(x[0]);
    }
    SpanOf(ws, x, Space);
    ScanSpelled(n, rest);
  }

  /** The separator group of a written token is found again: what follows it starts with whitespace or a digit. */
  lemma SeparatorOfToken(seps: set<char>, sep: string, ws: string, x: string, n: Numeral)
    requires Distinct(seps) && IsSeparator(sep, seps) && All(ws, Space) && WellFormed(n)
    requires x != [] && x[0] == n.whole[0]
    ensures var u := sep + (ws + x); SeparatorOf(u, seps) == sep && u[|sep|..] == ws + x
  {
    var v := ws + x;
    assert v[0] == (if ws != [] then ws[0] else n.whole[0]);
    assert IsSpace(v[0]) || IsDigit(v[0]);
    var u := sep + v;
    if sep == [] {
      assert u == v;
    } else {
      assert u[0] == sep[0] && u[1..] == v;
    }
  }

  /** The model pattern at the start of `t`: a tagged numeral immediately followed by `%`. */
  function MatchModel(t: string): (r: Option<Numeral>)
    ensures r.Some? ==> WellFormed(r.value)
  {
    match TaggedNumeral(t, ModelTag, ModelSeparators)
    case None => None
    case Some((n, rest)) => if rest != [] && rest[0] == '%' then Some(n) else None
  }

  /** The live-odds pattern at the start of `t`: a tagged numeral. */
  function MatchOdds(t: string): (r: Option<Numeral>)
    ensures r.Some? ==> WellFormed(r.value)
  {
    match TaggedNumeral(t, OddsTag, OddsSeparators)
    case None => None
    case Some((n, _)) => Some(n)
  }

  /** A model field as written: `Model`, an optional `:` or `%`, whitespace, the numeral, `%`. */
  function ModelField(sep: string, ws: string, n: Numeral): string {
    Token(ModelTag, sep, ws, n) + "%"
  }

  /** An odds field as written: `LiveOdds`, an optional `:`, whitespace, the numeral. */
  function OddsField(sep: string, ws: string, n: Numeral): string {
    Token(OddsTag, sep, ws, n)
  }

  /** A model-pattern match is a written model field at the start of `t`. */
  lemma ModelMatchSound(t: string)
    requires MatchModel(t).Some?
    ensures var n := MatchModel(t).value;
            exists sep, ws, rest :: IsSeparator(sep, ModelSeparators) && All(ws, Space)
                                    && t == ModelField(sep, ws, n) + rest
  {
    TaggedNumeralSound(t, ModelTag, ModelSeparators);
    var p := TaggedNumeral(t, ModelTag, ModelSeparators).value;
    var n, rest := p.0, p.1;
    var sep, ws :| IsSeparator(sep, ModelSeparators) && All(ws, Space) && t == Token(ModelTag, sep, ws, n) + rest;
    assert rest != [] && rest[0] == '%';
    assert rest == "%" + rest[1..] by {
      SplitAt(rest, 1);
      assert rest[..1] == "%";
    }
    Assoc(Token(ModelTag, sep, ws, n), "%", rest[1..]);
    assert t == ModelField(sep, ws, n) + rest[1..];
  }

  /** Every written model field is matched at its first character and yields its own numeral. */
  lemma ModelMatchComplete(sep: string, ws: string, n: Numeral, rest: string)
    requires IsSeparator(sep, ModelSeparators) && All(ws, Space) && WellFormed(n)
    ensures MatchModel(ModelField(sep, ws, n) + rest) == Some(n)
  {
    var after := "%" + rest;
    assert Distinct(ModelSeparators);
    assert Ends(after, n);
    TaggedNumeralComplete(ModelTag, ModelSeparators, sep, ws, n, after);
    Assoc(Token(ModelTag, sep, ws, n), "%", rest);
  }

  /** An odds-pattern match is a written odds field at the start of `t`, its numeral not extended by what follows. */
  lemma OddsMatchSound(t: string)
    requires MatchOdds(t).Some?
    ensures var n := MatchOdds(t).value;
            exists sep, ws, rest :: IsSeparator(sep, OddsSeparators) && All(ws, Space) && Ends(rest, n)
                                    && t == OddsField(sep, ws, n) + rest
  {
    TaggedNumeralSound(t, OddsTag, OddsSeparators);
    var p := TaggedNumeral(t, OddsTag, OddsSeparators).value;
    var n, rest := p.0, p.1;
    var sep, ws :| IsSeparator(sep, OddsSeparators) && All(ws, Space) && t == Token(OddsTag, sep, ws, n) + rest;
    assert t == OddsField(sep, ws, n) + rest;
  }

  /** Every written odds field whose numeral is not extended by what follows is matched and yields that numeral. */
  lemma OddsMatchComplete(sep: string, ws: string, n: Numeral, rest: string)
    requires IsSeparator(sep, OddsSeparators) && All(ws, Space) && WellFormed(n) && Ends(rest, n)
    ensures MatchOdds(OddsField(sep, ws, n) + rest) == Some(n)
  {
    assert Distinct(OddsSeparators);
    TaggedNumeralComplete(OddsTag, OddsSeparators, sep, ws, n, rest);
  }

  /** The two fields the pass extracts. */
  datatype Field = ModelPercent | LiveOdds

  /** The pattern of field `f` tried at the start of `t`. */
  function MatchAt(f: Field, t: string): (r: Option<Numeral>)
    ensures r.Some? ==> WellFormed(r.value)
  {
    match f
    case ModelPercent => MatchModel(t)
    case LiveOdds => MatchOdds(t)
  }

  /** `re.search`: the leftmost position of `s` where the pattern of `f` matches. */
  function Search(f: Field, s: string): (r: Option<nat>)
    ensures r.Some? ==> r.value <= |s| && MatchAt(f, s[r.value..]).Some?
    ensures forall q {:trigger MatchAt(f, s[q..])} :: 0 <= q <= |s| && (r.None? || q < r.value) ==> MatchAt(f, s[q..]).None?
  {
    if MatchAt(f, s).Some? then Some(0)
    else if s == [] then None
    else
      var r := Search(f, s[1..]);
      assert forall q :: 1 <= q <= |s| ==> s[1..][q - 1..] == s[q..];
      match r
      case None => None
      case Some(p) => Some(p + 1)
  }

  /** The first match of field `f` in `s`, if any. */
  function Find(f: Field, s: string): (r: Option<Numeral>)
    ensures r.Some? <==> Search(f, s).Some?
    ensures r.Some? ==> WellFormed(r.value) && r == MatchAt(f, s[Search(f, s).value..])
  {
    match Search(f, s)
    case None => None
    case Some(p) => MatchAt(f, s[p..])
  }

  /** The probability a matched model percentage stands for: a hundredth of its value. */
  function Percent(n: Numeral): (p: real)
    requires WellFormed(n)
    ensures 100.0 * p == Value(n)
  {
    Value(n) / 100.0
  }

  /** What one line contributes before filtering: the name and the two parsed numbers. */
  datatype Quote = Quote(name: string, pModel: real, odds: real)

  /** The name: the text before the first `|`, stripped. */
  function NameOf(line: string): string
    requires '|' in line
  {
    Strip(line[..IndexOf(line, '|')])
  }

  /** The name never holds a `|`: it is cut from the text before the first one. */
  lemma NameHasNoBar(line: string)
    requires '|' in line
    ensures '|' !in NameOf(line)
  {
    var before := line[..IndexOf(line, '|')];
    var name := NameOf(line);
    var lead, trail :| before == lead + name + trail && All(lead, Space) && All(trail, Space);
    assert forall i :: 0 <= i < |name| ==> name[i] == before[|lead| + i];
  }

  /** The fields: the text after the first `|`, stripped. */
  function RestOf(line: string): string
    requires '|' in line
  {
    Strip(line[IndexOf(line, '|') + 1..])
  }

  /**
   * One pasted line: dropped (None) when it has no `|` or its fields lack a
   * model percentage or a live-odds number; otherwise the stripped name, the
   * first model percentage divided by 100 and the first live-odds number.
   */
  function ParseLine(line: string): (r: Option<Quote>)
    ensures '|' !in line ==> r.None?
    ensures '|' in line ==> (r.Some? <==> Find(ModelPercent, RestOf(line)).Some? && Find(LiveOdds, RestOf(line)).Some?)
    ensures r.Some? ==> r.value.name == NameOf(line) && r.value.pModel >= 0.0 && r.value.odds >= 0.0
  {
    if '|' !in line then None
    else
      var rest := RestOf(line);
      match (Find(ModelPercent, rest), Find(LiveOdds, rest))
      case (Some(pct), Some(odds)) => Some(Quote(NameOf(line), Percent(pct), Value(odds)))
      case _ => None
  }
}
