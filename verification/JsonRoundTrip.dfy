/** The scanner undoes every JSON printer. */
module JsonRoundTrip {
  import opened Common
  import opened JsonScanner
  import opened JsonText

  /** The mode after s, read from mode m. */
  ghost function ModeFrom(s: string, m: Mode): Mode {
    if s == "" then m else NextMode(ModeFrom(s[..|s| - 1], m), s[|s| - 1])
  }

  /** Brackets of the kind open that s opens, less those it closes, outside strings, read from mode m. */
  ghost function Net(s: string, open: char, m: Mode): int {
    if s == "" then 0
    else
      var n := |s| - 1;
      Net(s[..n], open, m)
      + if ModeFrom(s[..n], m) != Outside then 0
        else if s[n] == open then 1
        else if s[n] == Closing(open) then -1
        else 0
  }

  lemma {:induction false} NetAppend(a: string, b: string, open: char, m: Mode)
    ensures ModeFrom(a + b, m) == ModeFrom(b, ModeFrom(a, m))
    ensures Net(a + b, open, m) == Net(a, open, m) + Net(b, open, ModeFrom(a, m))
  {
    if b == "" {
      assert a + b == a;
    } else {
      NetAppend(a, b[..|b| - 1], open, m);
      assert (a + b)[..|a + b| - 1] == a + b[..|b| - 1];
    }
  }

  /** Read from outside a string, s ends outside one, with its brackets balanced and never more closed than opened. */
  ghost predicate Inert(s: string, open: char) {
    ModeFrom(s, Outside) == Outside && Net(s, open, Outside) == 0
    && forall k :: 0 <= k <= |s| ==> Net(s[..k], open, Outside) >= 0
  }

  lemma InertAppend(a: string, b: string, open: char)
    requires Inert(a, open) && Inert(b, open)
    ensures Inert(a + b, open)
  {
    NetAppend(a, b, open, Outside);
    forall k | 0 <= k <= |a + b| ensures Net((a + b)[..k], open, Outside) >= 0 {
      if k <= |a| {
        assert (a + b)[..k] == a[..k];
      } else {
        assert (a + b)[..k] == a + b[..k - |a|];
        NetAppend(a, b[..k - |a|], open, Outside);
      }
    }
  }

  ghost predicate Plain(s: string) {
    forall i :: 0 <= i < |s| ==> s[i] != '"' && s[i] != '{' && s[i] != '}' && s[i] != '[' && s[i] != ']'
  }

  lemma {:induction false} PlainInert(s: string, open: char)
    requires Plain(s) && Opens(open)
    ensures Inert(s, open)
  {
    if s == "" {
      assert forall k :: 0 <= k <= 0 ==> s[..k] == "";
    } else {
      var n := |s| - 1;
      PlainInert(s[..n], open);
      forall k | 0 <= k <= |s| ensures Net(s[..k], open, Outside) >= 0 {
        assert if k <= n then s[..k] == s[..n][..k] else s[..k] == s;
      }
    }
  }

  // ----- strings -----

  /** Read from inside a string, s ends there, and no character of it is outside. */
  ghost predicate Hidden(s: string) {
    ModeFrom(s, InString) == InString && forall k :: 0 <= k <= |s| ==> ModeFrom(s[..k], InString) != Outside
  }

  lemma HiddenAppend(a: string, b: string)
    requires Hidden(a) && Hidden(b)
    ensures Hidden(a + b)
  {
    NetAppend(a, b, '{', InString);
    forall k | 0 <= k <= |a + b| ensures ModeFrom((a + b)[..k], InString) != Outside {
      if k <= |a| {
        assert (a + b)[..k] == a[..k];
      } else {
        assert (a + b)[..k] == a + b[..k - |a|];
        NetAppend(a, b[..k - |a|], '{', InString);
      }
    }
  }

  lemma HiddenOne(c: char)
    requires c != '"' && c != '\\'
    ensures Hidden([c])
  {
    assert [c][..0] == "" && [c][..1] == [c];
  }

  lemma {:induction false} HiddenMany(s: string)
    requires forall i :: 0 <= i < |s| ==> s[i] != '"' && s[i] != '\\'
    ensures Hidden(s)
  {
    if s == "" {
      assert s[..0] == "";
    } else {
      var n := |s| - 1;
      HiddenMany(s[..n]);
      HiddenOne(s[n]);
      HiddenAppend(s[..n], [s[n]]);
      assert s == s[..n] + [s[n]];
    }
  }

  lemma HiddenEscape(c: char)
    ensures Hidden(['\\', c])
  {
    var s, slash := ['\\', c], "\\";
    assert s == slash + [c] && slash[..0] == "" && [c][..0] == "";
    assert ModeFrom(slash, InString) == Escaped && ModeFrom([c], Escaped) == InString;
    NetAppend(slash, [c], '{', InString);
    assert s[..0] == "" && s[..1] == slash && s[..2] == s;
  }

  lemma HiddenPiece(p: Piece)
    requires ValidPiece(p)
    ensures Hidden(PrintPiece(p))
  {
    match p
    case Raw(c) => HiddenOne(c);
    case Esc(c) => HiddenEscape(c);
    case Uni(hex) =>
      HiddenEscape('u');
      HiddenMany(hex);
      HiddenAppend("\\u", hex);
  }

  lemma {:induction false} HiddenPieces(ps: seq<Piece>)
    requires ValidPieces(ps)
    ensures Hidden(PrintPieces(ps))
  {
    if ps == [] {
      HiddenMany("");
    } else {
      var n := |ps| - 1;
      HiddenPieces(ps[..n]);
      HiddenPiece(ps[n]);
      HiddenAppend(PrintPieces(ps[..n]), PrintPiece(ps[n]));
    }
  }

  lemma {:induction false} HiddenNet(s: string, open: char, k: nat)
    requires Hidden(s) && k <= |s|
    ensures Net(s[..k], open, InString) == 0
  {
    if k > 0 {
      HiddenNet(s, open, k - 1);
      assert s[..k][..k - 1] == s[..k - 1];
    }
  }

  /** A string token counts for nothing, whatever brackets, quotes or backslashes it holds. */
  lemma QuoteInert(ps: seq<Piece>, open: char)
    requires ValidPieces(ps) && Opens(open)
    ensures Inert(Quote(ps), open)
  {
    var body, q := PrintPieces(ps), "\"";
    HiddenPieces(ps);
    assert q[..0] == "" && ModeFrom(q, Outside) == InString && ModeFrom(q, InString) == Outside;
    assert Net(q, open, Outside) == 0 && Net(q, open, InString) == 0;
    NetAppend(q, body, open, Outside);
    NetAppend(q + body, q, open, Outside);
    HiddenNet(body, open, |body|);
    assert body[..|body|] == body;
    forall k | 0 <= k <= |Quote(ps)| ensures Net(Quote(ps)[..k], open, Outside) >= 0 {
      if k == 0 {
        assert Quote(ps)[..k] == "";
      } else if k <= |body| + 1 {
        assert Quote(ps)[..k] == q + body[..k - 1];
        NetAppend(q, body[..k - 1], open, Outside);
        HiddenNet(body, open, k - 1);
      } else {
        assert Quote(ps)[..k] == Quote(ps);
      }
    }
  }

  // ----- values -----

  /** A bracketed text is inert too: a pair of the kind counted goes up and down again, a pair of the other kind does not count. */
  lemma Bracketed(x: string, open: char, kind: char)
    requires Inert(x, open) && Opens(open) && Opens(kind)
    ensures Inert([kind] + x + [Closing(kind)], open)
    ensures kind == open ==> forall k :: 0 < k < |x| + 2 ==> Net(([kind] + x + [Closing(kind)])[..k], open, Outside) > 0
  {
    var a, b := [kind], [Closing(kind)];
    var s := a + x + b;
    var up := if kind == open then 1 else 0;
    assert a[..0] == "" && b[..0] == "";
    assert ModeFrom(a, Outside) == Outside == ModeFrom(b, Outside);
    assert Net(a, open, Outside) == up && Net(b, open, Outside) == -up;
    NetAppend(a, x, open, Outside);
    NetAppend(a + x, b, open, Outside);
    forall k | 0 < k <= |s|
      ensures Net(s[..k], open, Outside) >= 0 && (k < |s| ==> Net(s[..k], open, Outside) >= up)
    {
      if k < |s| {
        assert s[..k] == a + x[..k - 1];
        NetAppend(a, x[..k - 1], open, Outside);
      } else {
        assert s[..k] == s;
      }
    }
    assert s[..0] == "";
  }

  lemma NumberInert(n: Number, open: char)
    requires ValidNumber(n) && Opens(open)
    ensures Inert(PrintNumber(n), open)
  {
    assert Plain(n.whole);
    PlainInert(PrintNumber(n), open);
  }

  lemma SpacesInert(s: string, open: char)
    requires Spaces(s) && Opens(open)
    ensures Inert(s, open)
  {
    PlainInert(s, open);
  }

  lemma {:induction false} ValueInert(v: Json, open: char)
    requires Valid(v) && Opens(open)
    ensures Inert(Print(v), open)
    decreases v
  {
    match v
    case Null => PlainInert("null", open);
    case True => PlainInert("true", open);
    case False => PlainInert("false", open);
    case Num(n) => NumberInert(n, open);
    case Str(ps) => QuoteInert(ps, open);
    case EmptyArray(ws) =>
      SpacesInert(ws, open);
      Bracketed(ws, open, '[');
    case Array(items) =>
      ItemsInert(items, open);
      Bracketed(PrintItems(items), open, '[');
    case EmptyObject(ws) =>
      SpacesInert(ws, open);
      Bracketed(ws, open, '{');
    case Object(members) =>
      MembersInert(members, open);
      Bracketed(PrintMembers(members), open, '{');
  }

  lemma {:induction false} ItemsInert(items: Items, open: char)
    requires ValidItems(items) && Opens(open)
    ensures Inert(PrintItems(items), open)
    decreases items
  {
    SpacesInert(items.before, open);
    ValueInert(items.value, open);
    SpacesInert(items.after, open);
    InertAppend(items.before, Print(items.value), open);
    InertAppend(items.before + Print(items.value), items.after, open);
    var one := items.before + Print(items.value) + items.after;
    match items
    case LastItem(_, _, _) =>
      assert one + "" == one;
    case Item(_, _, _, rest) =>
      ItemsInert(rest, open);
      PlainInert(",", open);
      InertAppend(",", PrintItems(rest), open);
      InertAppend(one, "," + PrintItems(rest), open);
  }

  lemma {:induction false} MembersInert(ms: Members, open: char)
    requires ValidMembers(ms) && Opens(open)
    ensures Inert(PrintMembers(ms), open)
    decreases ms
  {
    var head := ms.before + Quote(ms.key) + ms.colon.before + ":" + ms.colon.after;
    var one := head + Print(ms.value) + ms.after;
    HeadInert(ms, open);
    ValueInert(ms.value, open);
    SpacesInert(ms.after, open);
    InertAppend(head, Print(ms.value), open);
    InertAppend(head + Print(ms.value), ms.after, open);
    match ms
    case LastMember(_, _, _, _, _) =>
      assert one + "" == one;
    case Member(_, _, _, _, _, rest) =>
      MembersInert(rest, open);
      PlainInert(",", open);
      InertAppend(",", PrintMembers(rest), open);
      InertAppend(one, "," + PrintMembers(rest), open);
  }

  lemma HeadInert(ms: Members, open: char)
    requires ValidMembers(ms) && Opens(open)
    ensures Inert(ms.before + Quote(ms.key) + ms.colon.before + ":" + ms.colon.after, open)
  {
    SpacesInert(ms.before, open);
    QuoteInert(ms.key, open);
    SpacesInert(ms.colon.before, open);
    PlainInert(":", open);
    SpacesInert(ms.colon.after, open);
    InertAppend(ms.before, Quote(ms.key), open);
    InertAppend(ms.before + Quote(ms.key), ms.colon.before, open);
    InertAppend(ms.before + Quote(ms.key) + ms.colon.before, ":", open);
    InertAppend(ms.before + Quote(ms.key) + ms.colon.before + ":", ms.colon.after, open);
  }

  // ----- the scanner on a printed value -----

  lemma {:induction false} CountsAreNet(s: string, open: char, k: nat)
    requires k <= |s| && Opens(open)
    ensures ModeAt(s, k) == ModeFrom(s[..k], Outside)
    ensures CountOutside(s, open, k) - CountOutside(s, Closing(open), k) == Net(s[..k], open, Outside)
  {
    if k > 0 {
      CountsAreNet(s, open, k - 1);
      assert s[..k][..k - 1] == s[..k - 1];
    }
  }

  // ----- the scanner on any text -----

  /** What a text is made of, whether or not it is JSON: characters outside strings, and strings made of units. */
  datatype Token = Single(c: char) | Quoted(units: seq<string>)

  /** A character that is no quote and no backslash, or a backslash and whatever follows it. */
  ghost predicate IsUnit(u: string) {
    (|u| == 1 && u[0] != '"' && u[0] != '\\') || (|u| == 2 && u[0] == '\\')
  }

  ghost predicate Units(us: seq<string>) {
    forall i :: 0 <= i < |us| ==> IsUnit(us[i])
  }

  ghost predicate IsToken(t: Token) {
    match t
    case Single(c) => c != '"'
    case Quoted(units) => Units(units)
  }

  ghost predicate Tokens(ts: seq<Token>) {
    forall i :: 0 <= i < |ts| ==> IsToken(ts[i])
  }

  ghost function TextOf(t: Token): string {
    match t
    case Single(c) => [c]
    case Quoted(units) => "\"" + Flatten(units) + "\""
  }

  ghost function TextOfAll(ts: seq<Token>): string {
    if ts == [] then "" else TextOfAll(ts[..|ts| - 1]) + TextOf(ts[|ts| - 1])
  }

  /** What has been read of a token that has not ended. */
  ghost function Begun(us: seq<string>, m: Mode): string {
    match m
    case Outside => ""
    case InString => "\"" + Flatten(us)
    case Escaped => "\"" + Flatten(us) + "\\"
  }

  ghost predicate Reads(x: string, ts: seq<Token>, us: seq<string>, m: Mode) {
    Tokens(ts) && Units(us) && x == TextOfAll(ts) + Begun(us, m)
  }

  lemma OneMode(c: char, m: Mode)
    ensures ModeFrom([c], m) == NextMode(m, c)
  {
    assert [c][..0] == "";
  }

  lemma {:induction false} UnitsMode(us: seq<string>)
    requires Units(us)
    ensures ModeFrom(Flatten(us), InString) == InString
  {
    if us != [] {
      var n := |us| - 1;
      UnitsMode(us[..n]);
      NetAppend(Flatten(us[..n]), us[n], '{', InString);
      if |us[n]| == 1 {
        HiddenOne(us[n][0]);
        assert us[n] == [us[n][0]];
      } else {
        HiddenEscape(us[n][1]);
        assert us[n] == ['\\', us[n][1]];
      }
    }
  }

  lemma BegunMode(us: seq<string>, m: Mode)
    requires Units(us)
    ensures ModeFrom(Begun(us, m), Outside) == m
  {
    UnitsMode(us);
    OneMode('"', Outside);
    OneMode('\\', InString);
    NetAppend("\"", Flatten(us), '{', Outside);
    NetAppend("\"" + Flatten(us), "\\", '{', Outside);
  }

  lemma {:induction false} TokensMode(ts: seq<Token>)
    requires Tokens(ts)
    ensures ModeFrom(TextOfAll(ts), Outside) == Outside
  {
    if ts != [] {
      var n := |ts| - 1;
      TokensMode(ts[..n]);
      NetAppend(TextOfAll(ts[..n]), TextOf(ts[n]), '{', Outside);
      match ts[n]
      case Single(c) => OneMode(c, Outside);
      case Quoted(units) =>
        BegunMode(units, InString);
        OneMode('"', InString);
        NetAppend("\"" + Flatten(units), "\"", '{', Outside);
    }
  }

  lemma MoreText(ts: seq<Token>, t: Token)
    ensures TextOfAll(ts + [t]) == TextOfAll(ts) + TextOf(t)
  {
    ButLast(ts, t);
  }

  /** One more character. */
  lemma ReadsNext(x: string, c: char, ts: seq<Token>, us: seq<string>, m: Mode) returns (ts': seq<Token>, us': seq<string>)
    requires Reads(x, ts, us, m)
    ensures Reads(x + [c], ts', us', NextMode(m, c))
  {
    ts', us' := ts, us;
    assert x + [c] == TextOfAll(ts) + (Begun(us, m) + [c]);
    match m
    case Outside =>
      if c == '"' {
        us' := [];
      } else {
        ts' := ts + [Single(c)];
        MoreText(ts, Single(c));
      }
    case InString =>
      if c == '"' {
        ts' := ts + [Quoted(us)];
        MoreText(ts, Quoted(us));
      } else if c != '\\' {
        us' := us + [[c]];
        MoreUnit(us, [c]);
        Regroup(TextOfAll(ts), "\"" + Flatten(us), [c]);
      }
    case Escaped =>
      us' := us + [['\\', c]];
      MoreUnit(us, ['\\', c]);
      Regroup(TextOfAll(ts), "\"" + Flatten(us) + "\\", [c]);
  }

  lemma MoreUnit(us: seq<string>, u: string)
    requires Units(us) && IsUnit(u)
    ensures Units(us + [u]) && "\"" + Flatten(us + [u]) == "\"" + Flatten(us) + u
  {
    ButLast(us, u);
  }

  lemma NothingRead()
    ensures Reads("", [], [], Outside)
  {
  }

  lemma {:induction false} ModeReads(x: string) returns (ts: seq<Token>, us: seq<string>)
    ensures Reads(x, ts, us, ModeFrom(x, Outside))
  {
    if x == "" {
      NothingRead();
      ts, us := [], [];
    } else {
      var n := |x| - 1;
      ts, us := ModeReads(x[..n]);
      ts, us := ReadsNext(x[..n], x[n], ts, us, ModeFrom(x[..n], Outside));
      assert x == x[..n] + [x[n]];
    }
  }

  /**
   * What the modes of the scan mean on any text: it is outside after whole
   * tokens, in a string after whole tokens, a quote and whole units, and after
   * an escape if a backslash comes on top of these.
   */
  lemma ModeExact(s: string, k: nat, m: Mode)
    requires k <= |s|
    ensures ModeAt(s, k) == m <==> exists ts, us :: Reads(s[..k], ts, us, m)
  {
    var ts, us := ModeReads(s[..k]);
    CountsAreNet(s, '{', k);
    forall ts, us | Reads(s[..k], ts, us, m) ensures ModeAt(s, k) == m {
      TokensMode(ts);
      BegunMode(us, m);
      NetAppend(TextOfAll(ts), Begun(us, m), '{', Outside);
    }
  }

  /** The places of c outside strings. */
  ghost function Places(s: string, c: char, k: nat): set<nat>
    requires k <= |s|
  {
    set j: nat | j < k && ModeAt(s, j) == Outside && s[j] == c
  }

  lemma {:induction false} CountExact(s: string, c: char, k: nat)
    requires k <= |s|
    ensures CountOutside(s, c, k) == |Places(s, c, k)|
  {
    if k == 0 {
      assert Places(s, c, k) == {};
    } else {
      CountExact(s, c, k - 1);
      assert Places(s, c, k) == Places(s, c, k - 1) + if ModeAt(s, k - 1) == Outside && s[k - 1] == c then {k - 1} else {};
    }
  }

  // ----- the scanner on a printed object or array -----

  predicate IsContainer(v: Json) {
    v.EmptyArray? || v.Array? || v.EmptyObject? || v.Object?
  }

  function Inside(v: Json): string
    requires IsContainer(v)
  {
    match v
    case EmptyArray(ws) => ws
    case Array(items) => PrintItems(items)
    case EmptyObject(ws) => ws
    case Object(members) => PrintMembers(members)
  }

  lemma InsideInert(v: Json, open: char)
    requires Valid(v) && IsContainer(v) && Opens(open)
    ensures Inert(Inside(v), open)
    ensures exists kind :: Opens(kind) && Print(v) == [kind] + Inside(v) + [Closing(kind)]
  {
    match v
    case EmptyArray(ws) =>
      SpacesInert(ws, open);
      assert Opens('[') && Print(v) == ['['] + Inside(v) + [Closing('[')];
    case Array(items) =>
      ItemsInert(items, open);
      assert Opens('[') && Print(v) == ['['] + Inside(v) + [Closing('[')];
    case EmptyObject(ws) =>
      SpacesInert(ws, open);
      assert Opens('{') && Print(v) == ['{'] + Inside(v) + [Closing('{')];
    case Object(members) =>
      MembersInert(members, open);
      assert Opens('{') && Print(v) == ['{'] + Inside(v) + [Closing('{')];
  }

  /** The brackets of a printed object or array balance at its end, and not before, whatever follows it. */
  lemma PrintedIsSpan(v: Json, suffix: string)
    requires Valid(v) && IsContainer(v)
    ensures IsSpan(Print(v) + suffix, |Print(v)|) && Opens(Print(v)[0])
  {
    InsideInert(v, '[');
    var kind :| Opens(kind) && Print(v) == [kind] + Inside(v) + [Closing(kind)];
    InsideInert(v, kind);
    BracketedIsSpan(Inside(v), kind, suffix);
  }

  lemma BracketedIsSpan(x: string, kind: char, suffix: string)
    requires Inert(x, kind) && Opens(kind)
    ensures IsSpan([kind] + x + [Closing(kind)] + suffix, |x| + 2)
  {
    var t := [kind] + x + [Closing(kind)];
    var s := t + suffix;
    Bracketed(x, kind, kind);
    forall e | 0 < e <= |t| ensures Balanced(s, e) <==> e == |t| {
      CountsAreNet(s, kind, e);
      assert s[..e] == t[..e];
      assert t[..|t|] == t;
    }
  }

  /**
   * From a prefix without an opening bracket, a printed object or array and
   * any suffix, the scanner takes exactly the printed value.
   */
  lemma ScannerUndoesPrinter(v: Json, prefix: string, suffix: string, r: Result<string, ScanError>)
    requires Valid(v) && IsContainer(v)
    requires forall i :: 0 <= i < |prefix| ==> !Opens(prefix[i])
    requires Extracts(prefix + Print(v) + suffix, r)
    ensures r == Ok(Print(v))
  {
    var text, start, e := prefix + Print(v) + suffix, |prefix|, |Print(v)|;
    PrintedIsSpan(v, suffix);
    assert text[start..] == Print(v) + suffix;
    assert SpanAt(text, start, e);
    assert text[start..][..e] == Print(v);
    ExtractsOnce(text, r, Ok(Print(v)));
  }

  /** The same of the scanner itself. */
  method ExtractPrinted(v: Json, prefix: string, suffix: string) returns (r: Result<string, ScanError>)
    requires Valid(v) && IsContainer(v)
    requires forall i :: 0 <= i < |prefix| ==> !Opens(prefix[i])
    ensures r == Ok(Print(v))
  {
    r := FindFirstJsonValue(prefix + Print(v) + suffix);
    ScannerUndoesPrinter(v, prefix, suffix, r);
  }
}
