/**
  Filling an alert template in backend/notifications.py (_format_message_v2): one
  str.replace per variable in dictionary order, then a regular expression that erases
  the placeholders left over.
*/
module AlertTemplate {
  import opened Wrappers
  import opened Text

  predicate NameChar(c: char) {
    'A' <= c <= 'Z' || c == '_'
  }

  /** A variable name: what [A-Z_]+ matches. */
  predicate IsName(n: string) {
    n != "" && forall k | 0 <= k < |n| :: NameChar(n[k])
  }

  function Placeholder(n: string): string {
    "{" + n + "}"
  }

  /** How many characters [A-Z_]* matches at the start. */
  function NameLength(s: string): (n: nat)
    ensures n <= |s|
    ensures forall k | 0 <= k < n :: NameChar(s[k])
    ensures n < |s| ==> !NameChar(s[n])
  {
    if s != "" && NameChar(s[0]) then 1 + NameLength(s[1..]) else 0
  }

  /** Whether \{[A-Z_]+\} matches at the start; its name then has length NameLength(s[1..]). */
  predicate PlaceholderAt(s: string) {
    && s != "" && s[0] == '{'
    && var n := NameLength(s[1..]); 0 < n && n + 1 < |s| && s[n + 1] == '}'
  }

  /** re.sub(r'\{[A-Z_]+\}', '', s) */
  function Cleanup(s: string): string {
    if s == "" then ""
    else if PlaceholderAt(s) then Cleanup(s[NameLength(s[1..]) + 2..])
    else [s[0]] + Cleanup(s[1..])
  }

  // ---------------------------------------------------------------- what a template means

  datatype Token = Char(c: char) | Var(name: string)

  /** The tokens of a template in which braces occur only as delimiters of placeholders. */
  function Parse(s: string): Option<seq<Token>> {
    if s == "" then Some([])
    else if PlaceholderAt(s) then
      var n := NameLength(s[1..]);
      (match Parse(s[n + 2..])
       case None => None
       case Some(rest) => Some([Var(s[1..n + 1])] + rest))
    else if s[0] == '{' || s[0] == '}' then None
    else
      match Parse(s[1..])
      case None => None
      case Some(rest) => Some([Char(s[0])] + rest)
  }

  function Show(t: Token): string {
    match t
    case Char(c) => [c]
    case Var(n) => Placeholder(n)
  }

  function Render(tokens: seq<Token>): string {
    if tokens == [] then "" else Show(tokens[0]) + Render(tokens[1..])
  }

  predicate TokenOk(t: Token) {
    match t
    case Char(c) => c != '{' && c != '}'
    case Var(n) => IsName(n)
  }

  predicate TokensOk(tokens: seq<Token>) {
    forall k | 0 <= k < |tokens| :: TokenOk(tokens[k])
  }

  lemma RenderCons(t: Token, rest: seq<Token>)
    ensures Render([t] + rest) == Show(t) + Render(rest)
    ensures TokenOk(t) && TokensOk(rest) ==> TokensOk([t] + rest)
  {
    assert ([t] + rest)[1..] == rest;
  }

  lemma {:induction false} ParseRenders(s: string)
    requires Parse(s).Some?
    ensures Render(Parse(s).value) == s && TokensOk(Parse(s).value)
  {
    if s == "" {
    } else if PlaceholderAt(s) {
      var n := NameLength(s[1..]);
      ParseRenders(s[n + 2..]);
      assert Placeholder(s[1..n + 1]) + s[n + 2..] == s;
      RenderCons(Var(s[1..n + 1]), Parse(s[n + 2..]).value);
    } else {
      ParseRenders(s[1..]);
      assert [s[0]] + s[1..] == s;
      RenderCons(Char(s[0]), Parse(s[1..]).value);
    }
  }

  predicate BraceFree(s: string) {
    '{' !in s && '}' !in s
  }

  /** Simultaneous substitution: every placeholder becomes its value, or nothing. */
  function Substitute(tokens: seq<Token>, values: map<string, string>): string {
    if tokens == [] then ""
    else
      (match tokens[0]
       case Char(c) => [c]
       case Var(n) => if n in values then values[n] else "")
      + Substitute(tokens[1..], values)
  }

  // ---------------------------------------------------------------- the loop, token by token

  /** The text in which the variables in `done` have been replaced already. */
  function Partly(tokens: seq<Token>, values: map<string, string>, done: set<string>): string
    requires done <= values.Keys
  {
    if tokens == [] then ""
    else
      (if tokens[0].Var? && tokens[0].name in done then values[tokens[0].name] else Show(tokens[0]))
      + Partly(tokens[1..], values, done)
  }

  lemma SamePlaceholder(m: string, n: string, rest: string)
    requires IsName(m) && IsName(n) && StartsWith(Placeholder(m) + rest, Placeholder(n))
    ensures m == n
  {
    var s := Placeholder(m) + rest;
    forall k | 0 <= k < |n| + 2 ensures s[k] == Placeholder(n)[k] {
      assert s[..|n| + 2][k] == s[k];
    }
    assert forall k | 0 <= k < |n| :: n[k] == Placeholder(n)[k + 1] == s[k + 1];
    assert forall k | 0 <= k < |m| :: m[k] == Placeholder(m)[k + 1] == s[k + 1];
    assert s[|n| + 1] == '}' && s[|m| + 1] == '}';
  }

  /** Replacing one variable passes over the placeholder of another. */
  lemma ReplaceOther(m: string, n: string, value: string, rest: string)
    requires IsName(m) && IsName(n) && m != n
    ensures Replace(Placeholder(m) + rest, Placeholder(n), value) ==
            Placeholder(m) + Replace(rest, Placeholder(n), value)
  {
    var s := Placeholder(m) + rest;
    if StartsWith(s, Placeholder(n)) {
      SamePlaceholder(m, n, rest);
      assert false;
    }
    assert s[1..] == (m + "}") + rest;
    ReplaceSkips(m + "}", rest, Placeholder(n), value);
    assert ['{'] + ((m + "}") + Replace(rest, Placeholder(n), value))
        == Placeholder(m) + Replace(rest, Placeholder(n), value);
  }

  lemma ReplaceInToken(t: Token, n: string, value: string, rest: string)
    requires TokenOk(t) && IsName(n)
    ensures Replace(Show(t) + rest, Placeholder(n), value) ==
            (if t == Var(n) then value else Show(t)) + Replace(rest, Placeholder(n), value)
  {
    match t
    case Char(c) =>
      ReplaceSkips([c], rest, Placeholder(n), value);
    case Var(m) =>
      if m == n {
        ReplaceHits(rest, Placeholder(n), value);
      } else {
        ReplaceOther(m, n, value, rest);
      }
  }

  lemma {:induction false} ReplaceStep(tokens: seq<Token>, values: map<string, string>, done: set<string>, n: string)
    requires TokensOk(tokens) && done <= values.Keys && n in values && IsName(n)
    requires forall v | v in values.Values :: BraceFree(v)
    ensures Replace(Partly(tokens, values, done), Placeholder(n), values[n]) == Partly(tokens, values, done + {n})
  {
    if tokens != [] {
      ReplaceStep(tokens[1..], values, done, n);
      var rest := Partly(tokens[1..], values, done);
      if tokens[0].Var? && tokens[0].name in done {
        var v := values[tokens[0].name];
        assert v in values.Values;
        ReplaceSkips(v, rest, Placeholder(n), values[n]);
      } else {
        ReplaceInToken(tokens[0], n, values[n], rest);
      }
    }
  }

  lemma {:induction false} CleanupSkips(t: string, rest: string)
    requires BraceFree(t)
    ensures Cleanup(t + rest) == t + Cleanup(rest)
  {
    if t == "" {
      assert t + rest == rest;
    } else {
      assert (t + rest)[0] == t[0] && (t + rest)[1..] == t[1..] + rest;
      assert '{' !in t[1..] && '}' !in t[1..];
      CleanupSkips(t[1..], rest);
    }
  }

  lemma CleanupErases(n: string, rest: string)
    requires IsName(n)
    ensures Cleanup(Placeholder(n) + rest) == Cleanup(rest)
  {
    var s := Placeholder(n) + rest;
    var k := NameLength(s[1..]);
    assert forall i | 0 <= i < |n| :: s[1..][i] == n[i];
    assert s[1..][|n|] == '}';
    assert k == |n|;
    assert s[|n| + 2..] == rest;
  }

  lemma {:induction false} CleanupSubstitutes(tokens: seq<Token>, values: map<string, string>)
    requires TokensOk(tokens)
    requires forall v | v in values.Values :: BraceFree(v)
    ensures Cleanup(Partly(tokens, values, values.Keys)) == Substitute(tokens, values)
  {
    if tokens != [] {
      CleanupSubstitutes(tokens[1..], values);
      var rest := Partly(tokens[1..], values, values.Keys);
      match tokens[0]
      case Char(c) => CleanupSkips([c], rest);
      case Var(n) =>
        if n in values {
          assert values[n] in values.Values;
          CleanupSkips(values[n], rest);
        } else {
          CleanupErases(n, rest);
        }
    }
  }

  lemma {:induction false} PartlyNone(tokens: seq<Token>, values: map<string, string>)
    ensures Partly(tokens, values, {}) == Render(tokens)
  {
    if tokens != [] {
      PartlyNone(tokens[1..], values);
    }
  }

  /** The message after the variables in `order` have been replaced one by one. */
  function ReplaceAll(template: string, values: map<string, string>, order: seq<string>): string
    requires forall n | n in order :: n in values
  {
    if order == [] then template
    else
      var n := order[|order| - 1];
      Replace(ReplaceAll(template, values, order[..|order| - 1]), Placeholder(n), values[n])
  }

  lemma {:induction false} ReplaceAllIsPartly(template: string, values: map<string, string>, order: seq<string>)
    requires forall n | n in order :: n in values && IsName(n)
    requires forall v | v in values.Values :: BraceFree(v)
    requires Parse(template).Some?
    ensures var done := set n | n in order;
            done <= values.Keys &&
            ReplaceAll(template, values, order) == Partly(Parse(template).value, values, done)
  {
    ParseRenders(template);
    var tokens := Parse(template).value;
    if order == [] {
      PartlyNone(tokens, values);
      assert (set n | n in order) == {};
    } else {
      var k := |order| - 1;
      ReplaceAllIsPartly(template, values, order[..k]);
      ReplaceStep(tokens, values, (set n | n in order[..k]), order[k]);
      assert (set n | n in order) == (set n | n in order[..k]) + {order[k]};
    }
  }

  /** When braces only delimit placeholders and values have none, the replacements cannot
      meddle with each other: the message is the simultaneous substitution with unmapped
      placeholders erased, in whatever order the dictionary lists its variables. */
  lemma FillingIsSubstitution(template: string, values: map<string, string>, order: seq<string>)
    requires forall n :: n in order <==> n in values
    requires forall n | n in values :: IsName(n)
    requires Parse(template).Some? && forall v | v in values.Values :: BraceFree(v)
    ensures Cleanup(ReplaceAll(template, values, order)) == Substitute(Parse(template).value, values)
  {
    ReplaceAllIsPartly(template, values, order);
    assert (set n | n in order) == values.Keys;
    ParseRenders(template);
    CleanupSubstitutes(Parse(template).value, values);
  }

  method FormatMessage(template: string, values: map<string, string>, order: seq<string>) returns (message: string)
    requires forall n :: n in order <==> n in values
    ensures message == Cleanup(ReplaceAll(template, values, order))
  {
    message := template;
    for k := 0 to |order|
      invariant message == ReplaceAll(template, values, order[..k])
    {
      assert order[..k + 1][..k] == order[..k];
      message := Replace(message, Placeholder(order[k]), values[order[k]]);
    }
    assert order[..|order|] == order;
    message := Cleanup(message);
  }

  /** A value that looks like a placeholder is filled in turn or erased, depending on the
      order of the variables: the condition on values is needed. */
  lemma OrderMatters()
    ensures Cleanup(Replace(Replace("{A}", "{A}", "{B}"), "{B}", "x")) == "x"
    ensures Cleanup(Replace(Replace("{A}", "{B}", "x"), "{A}", "{B}")) == ""
  {
    assert Replace("{A}", "{A}", "{B}") == "{B}" by { ReplaceHits("", "{A}", "{B}"); assert "{A}" + "" == "{A}"; }
    assert Replace("{B}", "{B}", "x") == "x" by { ReplaceHits("", "{B}", "x"); assert "{B}" + "" == "{B}"; }
    assert Replace("{A}", "{B}", "x") == "{A}" by {
      ReplaceInToken(Var("A"), "B", "x", "");
      assert "{A}" + "" == "{A}";
    }
    CleanupErases("B", "");
    assert "{B}" + "" == "{B}";
    CleanupSkips("x", "");
    assert "x" + "" == "x";
  }

  // ---------------------------------------------------------------- what is left in the end

  /** A placeholder stands from i to j: a brace, at least one of A-Z and _, a brace. */
  predicate PlaceholderFrom(s: string, i: nat, j: nat) {
    && i + 1 < j < |s| && s[i] == '{' && s[j] == '}'
    && forall k | i < k < j :: 'A' <= s[k] <= 'Z' || s[k] == '_'
  }

  lemma PlaceholderAtIff(s: string)
    ensures PlaceholderAt(s) <==> exists j: nat :: PlaceholderFrom(s, 0, j)
  {
    if s != "" {
      var n := NameLength(s[1..]);
      assert forall k | 0 < k <= n :: s[k] == s[1..][k - 1];
      if PlaceholderAt(s) {
        assert PlaceholderFrom(s, 0, n + 1);
      }
      if j: nat :| PlaceholderFrom(s, 0, j) {
        if n < j - 1 {
          assert s[1..][n] == s[n + 1];
          assert !NameChar(s[n + 1]);
        } else if n > j - 1 {
          assert NameChar(s[1..][j - 1]) && s[1..][j - 1] == s[j];
        }
      }
    }
  }

  lemma PlaceholderShift(s: string, i: nat, j: nat)
    requires s != ""
    ensures PlaceholderFrom(s[1..], i, j) <==> PlaceholderFrom(s, i + 1, j + 1)
  {
    assert forall k | 0 <= k < |s| - 1 :: s[1..][k] == s[k + 1];
    if PlaceholderFrom(s[1..], i, j) {
      forall k | i + 1 < k < j + 1 ensures 'A' <= s[k] <= 'Z' || s[k] == '_' {
        assert s[1..][k - 1] == s[k];
      }
    }
  }

  lemma {:induction false} CleanupShortens(s: string)
    ensures |Cleanup(s)| <= |s|
  {
    if s != "" {
      CleanupShortens(if PlaceholderAt(s) then s[NameLength(s[1..]) + 2..] else s[1..]);
    }
  }

  /** The final clean-up leaves a text alone exactly if no placeholder stands in it: a pair of
      braces around anything else stays. */
  lemma {:induction false} CleanupIff(s: string)
    ensures Cleanup(s) == s <==> forall i: nat, j: nat :: !PlaceholderFrom(s, i, j)
  {
    if s != "" {
      PlaceholderAtIff(s);
      if PlaceholderAt(s) {
        CleanupShortens(s[NameLength(s[1..]) + 2..]);
      } else {
        CleanupIff(s[1..]);
        assert Cleanup(s) == s <==> Cleanup(s[1..]) == s[1..];
        forall i: nat, j: nat ensures PlaceholderFrom(s[1..], i, j) <==> PlaceholderFrom(s, i + 1, j + 1) {
          PlaceholderShift(s, i, j);
        }
        if i: nat, j: nat :| PlaceholderFrom(s, i, j) {
          assert i > 0;
          assert PlaceholderFrom(s[1..], i - 1, j - 1);
        }
      }
    }
  }
}
