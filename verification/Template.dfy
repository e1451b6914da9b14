/** Templates with `{name}` and `{{name}}` placeholders: rendering by repeated
    global replacement, and the extraction of the names a template requires. */
module Template {
  import opened Tables

  // ------------------------------------------------------------------
  // String.prototype.replace
  // ------------------------------------------------------------------

  predicate IsDollarCode(c: char) {
    c == '$' || c == '&' || c == '`' || c == '\''
  }

  /** The replacement text for one match, with its dollar patterns expanded. */
  function Expand(v: string, matched: string, before: string, after: string): string {
    if v == "" then ""
    else if |v| >= 2 && v[0] == '$' && IsDollarCode(v[1]) then
      (if v[1] == '$' then "$" else if v[1] == '&' then matched else if v[1] == '`' then before else after)
      + Expand(v[2..], matched, before, after)
    else [v[0]] + Expand(v[1..], matched, before, after)
  }

  predicate StartsWith(s: string, p: string) {
    |p| <= |s| && s[..|p|] == p
  }

  /** Global replacement of a literal pattern, from position `i` on: leftmost, not overlapping. */
  function ReplaceFrom(s: string, i: nat, pattern: string, v: string): string
    requires i <= |s| && pattern != ""
    decreases |s| - i
  {
    if i == |s| then ""
    else if StartsWith(s[i..], pattern) then
      Expand(v, pattern, s[..i], s[i + |pattern|..]) + ReplaceFrom(s, i + |pattern|, pattern, v)
    else [s[i]] + ReplaceFrom(s, i + 1, pattern, v)
  }

  datatype Variable = Variable(key: string, value: string)

  function DoublePattern(key: string): string {
    "{{" + key + "}}"
  }

  function SinglePattern(key: string): string {
    "{" + key + "}"
  }

  /** The rendering of the variables one after the other; values are already formatted. */
  function Rendered(template: string, variables: seq<Variable>): string
    decreases |variables|
  {
    if variables == [] then template
    else
      var x := variables[0];
      var doubled := ReplaceFrom(template, 0, DoublePattern(x.key), x.value);
      Rendered(ReplaceFrom(doubled, 0, SinglePattern(x.key), x.value), variables[1..])
  }

  /** `renderTemplate` */
  method RenderTemplate(template: string, variables: seq<Variable>) returns (rendered: string)
    ensures rendered == Rendered(template, variables)
  {
    rendered := template;
    for i := 0 to |variables|
      invariant Rendered(rendered, variables[i..]) == Rendered(template, variables)
    {
      assert variables[i..][1..] == variables[i + 1..];
      var x := variables[i];
      rendered := ReplaceFrom(rendered, 0, DoublePattern(x.key), x.value);
      rendered := ReplaceFrom(rendered, 0, SinglePattern(x.key), x.value);
    }
  }

  // ------------------------------------------------------------------
  // Extraction
  // ------------------------------------------------------------------

  /** The first closing brace at or after `i`. */
  function FirstClose(s: string, i: nat): (j: nat)
    ensures i <= j && (j < |s| ==> s[j] == '}') && (i > |s| ==> j == i) && (i <= |s| ==> j <= |s|)
    ensures forall k :: i <= k < j && k < |s| ==> s[k] != '}'
    decreases if i < |s| then |s| - i else 0
  {
    if i >= |s| || s[i] == '}' then i else FirstClose(s, i + 1)
  }

  /** Where the group of `\{\{([^#/}][^}]*)\}\}` ends when it matches at the head of `s`. */
  function MatchDouble(s: string): (end: Option<nat>)
    ensures end.Some? ==> 3 <= end.value && end.value + 2 <= |s|
  {
    if |s| < 3 || s[0] != '{' || s[1] != '{' || s[2] == '#' || s[2] == '/' || s[2] == '}' then None
    else
      var j := FirstClose(s, 3);
      if j + 1 < |s| && s[j + 1] == '}' then Some(j) else None
  }

  /** Where the group of `\{([^{][^}]*)\}` ends when it matches at the head of `s`. */
  function MatchSingle(s: string): (end: Option<nat>)
    ensures end.Some? ==> 2 <= end.value < |s|
  {
    if |s| < 2 || s[0] != '{' || s[1] == '{' then None
    else
      var j := FirstClose(s, 2);
      if j < |s| then Some(j) else None
  }

  /** The groups of all the matches, each search starting where the last match ended. */
  function DoubleNames(s: string): seq<string> {
    if s == "" then []
    else
      var end := MatchDouble(s);
      if end.Some? then [s[2..end.value]] + DoubleNames(s[end.value + 2..]) else DoubleNames(s[1..])
  }

  function SingleNames(s: string): seq<string> {
    if s == "" then []
    else
      var end := MatchSingle(s);
      if end.Some? then [s[1..end.value]] + SingleNames(s[end.value + 1..]) else SingleNames(s[1..])
  }

  /** The white space that `trim` removes. */
  predicate IsBlank(c: char) {
    c in "\t\n\r \U{0B}\U{0C}\U{A0}\U{1680}\U{2028}\U{2029}\U{202F}\U{205F}\U{3000}\U{FEFF}"
    || '\U{2000}' <= c <= '\U{200A}'
  }

  function TrimStart(s: string): string {
    if s != "" && IsBlank(s[0]) then TrimStart(s[1..]) else s
  }

  function TrimEnd(s: string): string {
    if s != "" && IsBlank(s[|s| - 1]) then TrimEnd(s[..|s| - 1]) else s
  }

  function Trim(s: string): string {
    TrimEnd(TrimStart(s))
  }

  predicate IsBlockTag(name: string) {
    name != "" && (name[0] == '#' || name[0] == '/')
  }

  function AddName(variables: seq<string>, name: string): seq<string> {
    if name != "" && name !in variables then variables + [name] else variables
  }

  /** A group found between double braces is added unless it is blank, known or a block tag. */
  function WithDouble(variables: seq<string>, group: string): seq<string> {
    var name := Trim(group);
    if name != "" && name !in variables && !IsBlockTag(name) then variables + [name] else variables
  }

  function AddDoubles(variables: seq<string>, names: seq<string>): seq<string>
    decreases |names|
  {
    if names == [] then variables else AddDoubles(WithDouble(variables, names[0]), names[1..])
  }

  function AddSingles(variables: seq<string>, names: seq<string>): seq<string>
    decreases |names|
  {
    if names == [] then variables else AddSingles(AddName(variables, Trim(names[0])), names[1..])
  }

  function Extracted(template: string): seq<string> {
    AddSingles(AddDoubles([], DoubleNames(template)), SingleNames(template))
  }

  lemma DoublesFound(rest: string, end: nat)
    requires MatchDouble(rest) == Some(end)
    ensures DoubleNames(rest) == [rest[2..end]] + DoubleNames(rest[end + 2..])
  {
  }

  lemma DoublesNotFound(rest: string)
    requires rest != "" && MatchDouble(rest).None?
    ensures DoubleNames(rest) == DoubleNames(rest[1..])
  {
  }

  lemma AddOneDouble(variables: seq<string>, name: string, names: seq<string>)
    ensures AddDoubles(variables, [name] + names) == AddDoubles(WithDouble(variables, name), names)
  {
    assert ([name] + names)[1..] == names;
  }

  lemma SinglesFound(rest: string, end: nat)
    requires MatchSingle(rest) == Some(end)
    ensures SingleNames(rest) == [rest[1..end]] + SingleNames(rest[end + 1..])
  {
  }

  lemma AddOneSingle(variables: seq<string>, name: string, names: seq<string>)
    ensures AddSingles(variables, [name] + names) == AddSingles(AddName(variables, Trim(name)), names)
  {
    assert ([name] + names)[1..] == names;
  }

  /** The body of the first loop. */
  method TakeDouble(before: seq<string>, group: string) returns (variables: seq<string>)
    ensures variables == WithDouble(before, group)
  {
    variables := before;
    var varName := Trim(group);
    if varName != "" && varName !in variables && !IsBlockTag(varName) {
      variables := variables + [varName];
    }
  }

  /** The body of the second loop. */
  method TakeSingle(before: seq<string>, group: string) returns (variables: seq<string>)
    ensures variables == AddName(before, Trim(group))
  {
    variables := before;
    var varName := Trim(group);
    if varName != "" && varName !in variables {
      variables := variables + [varName];
    }
  }

  /** The first `exec` loop of `extractVariables`; `rest` is the text after the last match. */
  method CollectDoubles(template: string) returns (variables: seq<string>)
    ensures variables == AddDoubles([], DoubleNames(template))
  {
    variables := [];
    var rest := template;
    while rest != ""
      invariant AddDoubles(variables, DoubleNames(rest)) == AddDoubles([], DoubleNames(template))
      decreases |rest|
    {
      var end := MatchDouble(rest);
      if end.None? {
        DoublesNotFound(rest);
        rest := rest[1..];
      } else {
        var group, after := rest[2..end.value], rest[end.value + 2..];
        DoublesFound(rest, end.value);
        AddOneDouble(variables, group, DoubleNames(after));
        variables := TakeDouble(variables, group);
        rest := after;
      }
    }
  }

  /** The second `exec` loop. */
  method CollectSingles(template: string, before: seq<string>) returns (variables: seq<string>)
    ensures variables == AddSingles(before, SingleNames(template))
  {
    variables := before;
    var rest := template;
    while rest != ""
      invariant AddSingles(variables, SingleNames(rest)) == AddSingles(before, SingleNames(template))
      decreases |rest|
    {
      var end := MatchSingle(rest);
      if end.None? {
        rest := rest[1..];
      } else {
        var group, after := rest[1..end.value], rest[end.value + 1..];
        SinglesFound(rest, end.value);
        AddOneSingle(variables, group, SingleNames(after));
        variables := TakeSingle(variables, group);
        rest := after;
      }
    }
  }

  /** `extractVariables` */
  method ExtractVariables(template: string) returns (variables: seq<string>)
    ensures variables == Extracted(template)
  {
    var doubles := CollectDoubles(template);
    variables := CollectSingles(template, doubles);
  }

  /** The required names that are not provided. */
  function Missing(required: seq<string>, provided: seq<string>): (missing: seq<string>)
    ensures forall n :: n in missing <==> n in required && n !in provided
  {
    if required == [] then []
    else
      assert required == [required[0]] + required[1..];
      (if required[0] in provided then [] else [required[0]]) + Missing(required[1..], provided)
  }

  function KeysOf(variables: seq<Variable>): (keys: seq<string>)
    ensures |keys| == |variables| && forall i :: 0 <= i < |keys| ==> keys[i] == variables[i].key
  {
    if variables == [] then [] else [variables[0].key] + KeysOf(variables[1..])
  }

  /** `validateVariables` */
  method ValidateVariables(template: string, variables: seq<Variable>) returns (valid: bool, missing: seq<string>)
    ensures missing == Missing(Extracted(template), KeysOf(variables))
    ensures valid <==> forall name <- Extracted(template) :: name in KeysOf(variables)
  {
    var required := ExtractVariables(template);
    missing := Missing(required, KeysOf(variables));
    valid := |missing| == 0;
    assert missing != [] ==> missing[0] in missing;
  }
}
