/** Finding where the first JSON object or array of a reply ends. */
module JsonScanner {
  import opened Common

  datatype ScanError = NoJson | Unterminated

  // ----- what the scanner looks for -----

  predicate Opens(c: char) {
    c == '{' || c == '['
  }

  function Closing(open: char): char {
    if open == '{' then '}' else ']'
  }

  datatype Mode = Outside | InString | Escaped

  function NextMode(m: Mode, c: char): Mode {
    match m
    case Outside => if c == '"' then InString else Outside
    case InString => if c == '\\' then Escaped else if c == '"' then Outside else InString
    case Escaped => InString
  }

  /** Where the scan of s stands after k characters: outside strings, in one, or after a backslash in one. */
  function ModeAt(s: string, k: nat): Mode
    requires k <= |s|
  {
    if k == 0 then Outside else NextMode(ModeAt(s, k - 1), s[k - 1])
  }

  /** Occurrences of c outside strings among the first k characters. */
  function CountOutside(s: string, c: char, k: nat): nat
    requires k <= |s|
  {
    if k == 0 then 0
    else CountOutside(s, c, k - 1) + if ModeAt(s, k - 1) == Outside && s[k - 1] == c then 1 else 0
  }

  /** After e characters of s, as many brackets of the kind s starts with have been closed as opened, outside strings. */
  predicate Balanced(s: string, e: nat)
    requires 0 < e <= |s|
  {
    CountOutside(s, s[0], e) == CountOutside(s, Closing(s[0]), e)
  }

  /** s[..e] is the shortest nonempty prefix of s whose brackets balance. */
  ghost predicate IsSpan(s: string, e: nat) {
    0 < e <= |s| && Balanced(s, e) && forall e' :: 0 < e' < e ==> !Balanced(s, e')
  }

  ghost predicate IsStart(text: string, start: nat) {
    start < |text| && Opens(text[start]) && forall i :: 0 <= i < start ==> !Opens(text[i])
  }

  ghost predicate SpanAt(text: string, start: nat, e: nat) {
    IsStart(text, start) && IsSpan(text[start..], e)
  }

  ghost predicate NeverBalances(s: string) {
    forall e :: 0 < e <= |s| ==> !Balanced(s, e)
  }

  /** The result for a text: the shortest balanced span from its first bracket on, or what is missing. */
  ghost predicate Extracts(text: string, r: Result<string, ScanError>) {
    match r
    case Ok(value) => exists start: nat, e: nat :: SpanAt(text, start, e) && value == text[start..][..e]
    case Err(NoJson) => forall i :: 0 <= i < |text| ==> !Opens(text[i])
    case Err(Unterminated) => exists start: nat :: IsStart(text, start) && NeverBalances(text[start..])
  }

  /** No text has two results. */
  lemma ExtractsOnce(text: string, r: Result<string, ScanError>, r': Result<string, ScanError>)
    requires Extracts(text, r) && Extracts(text, r')
    ensures r == r'
  {
    if r != Err(NoJson) && r' != Err(NoJson) {
      var a := StartOf(text, r);
      var b := StartOf(text, r');
      assert !(a < b) && !(b < a);
    }
  }

  lemma StartOf(text: string, r: Result<string, ScanError>) returns (start: nat)
    requires Extracts(text, r) && r != Err(NoJson)
    ensures IsStart(text, start)
    ensures r.Ok? ==> exists e: nat :: IsSpan(text[start..], e) && r.value == text[start..][..e]
    ensures r == Err(Unterminated) ==> NeverBalances(text[start..])
  {
    match r
    case Ok(value) =>
      var s: nat, e: nat :| SpanAt(text, s, e) && value == text[s..][..e];
      start := s;
    case Err(_) =>
      var s: nat :| IsStart(text, s) && NeverBalances(text[s..]);
      start := s;
  }

  method FindFirstJsonStart(text: string) returns (start: Option<nat>)
    ensures start.None? <==> forall i :: 0 <= i < |text| ==> !Opens(text[i])
    ensures start.Some? ==> IsStart(text, start.value)
  {
    for i := 0 to |text|
      invariant forall k :: 0 <= k < i ==> !Opens(text[k])
    {
      if Opens(text[i]) {
        return Some(i);
      }
    }
    start := None;
  }

  /** On any text: the shortest balanced span from the first bracket on, or the error that says what is missing. */
  method FindFirstJsonValue(text: string) returns (r: Result<string, ScanError>)
    ensures Extracts(text, r)
  {
    var first := FindFirstJsonStart(text);
    if first.None? {
      return Err(NoJson);
    }
    var start := first.value;
    var opening := text[start];
    var closing := Closing(opening);
    ghost var s := text[start..];

    var depth, inString, escaped := 0, false, false;
    for index := start to |text|
      invariant depth == CountOutside(s, opening, index - start) - CountOutside(s, closing, index - start)
      invariant ModeAt(s, index - start) == if !inString then Outside else if escaped then Escaped else InString
      invariant escaped ==> inString
      invariant index > start ==> depth > 0
      invariant forall e :: 0 < e <= index - start ==> !Balanced(s, e)
    {
      var c := text[index];
      assert c == s[index - start];
      if inString {
        if escaped {
          escaped := false;
        } else if c == '\\' {
          escaped := true;
        } else if c == '"' {
          inString := false;
        }
        continue;
      }
      if c == '"' {
        inString := true;
      } else if c == opening {
        depth := depth + 1;
      } else if c == closing {
        depth := depth - 1;
        if depth == 0 {
          assert IsSpan(s, index + 1 - start);
          assert text[start..index + 1] == s[..index + 1 - start] && SpanAt(text, start, index + 1 - start);
          return Ok(text[start..index + 1]);
        }
      }
    }
    r := Err(Unterminated);
  }
}
