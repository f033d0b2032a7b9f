/** Environment variables that override configuration values by underscore-joined key names. */
module EnvironmentOverrides {
  import opened Bytes
  import opened Json
  import opened Ordering

  const PREFIX: string := "CALAGOPUS_"

  // ----- names and their tokens

  /** `name.split('_')`: always at least one token. */
  function Split(name: string): (r: seq<string>)
    ensures r != []
    ensures forall i :: 0 <= i < |r| ==> '_' !in r[i]
  {
    if name == "" then [""]
    else if name[0] == '_' then [""] + Split(name[1..])
    else Extend(name[0], Split(name[1..]))
  }

  /** A character put in front of the first token. */
  function Extend(c: char, tokens: seq<string>): (r: seq<string>)
    requires tokens != []
    ensures |r| == |tokens| && r[0] == [c] + tokens[0] && r[1..] == tokens[1..]
  {
    [[c] + tokens[0]] + tokens[1..]
  }

  lemma ExtendAppend(c: char, a: seq<string>, b: seq<string>)
    requires a != []
    ensures Extend(c, a + b) == Extend(c, a) + b
  {
    assert (a + b)[1..] == a[1..] + b;
  }

  /** `tokens.join("_")`. */
  function Join(tokens: seq<string>): string {
    if tokens == [] then ""
    else if |tokens| == 1 then tokens[0]
    else tokens[0] + "_" + Join(tokens[1..])
  }

  lemma {:induction false} JoinSplit(name: string)
    ensures Join(Split(name)) == name
  {
    if name != "" {
      JoinSplit(name[1..]);
      var rest := Split(name[1..]);
      if name[0] == '_' {
        assert ([""] + rest)[1..] == rest;
      } else {
        var r := Split(name);
        assert r[1..] == rest[1..];
        if |rest| > 1 {
          assert r[0] + "_" + Join(rest[1..]) == [name[0]] + (rest[0] + "_" + Join(rest[1..]));
        }
      }
    }
  }

  lemma {:induction false} SplitPlain(token: string)
    requires '_' !in token
    ensures Split(token) == [token]
  {
    if token != "" {
      SplitPlain(token[1..]);
      assert [token[0]] + token[1..] == token;
      assert [token[1..]][1..] == [];
    }
  }

  lemma SplitStep(name: string)
    requires name != ""
    ensures Split(name) == if name[0] == '_' then [""] + Split(name[1..]) else Extend(name[0], Split(name[1..]))
  {
  }

  lemma {:induction false} SplitConcat(a: string, b: string)
    ensures Split(a + "_" + b) == Split(a) + Split(b)
  {
    var s := a + "_" + b;
    if a == "" {
      assert s == "_" + b && s[1..] == b;
    } else {
      SplitConcat(a[1..], b);
      assert s[1..] == a[1..] + "_" + b && s[0] == a[0];
      hide Split, Extend;
      SplitStep(s);
      SplitStep(a);
      if a[0] != '_' {
        ExtendAppend(a[0], Split(a[1..]), Split(b));
      } else {
        Associative([""], Split(a[1..]), Split(b));
      }
    }
  }

  /** The tokens of a path of keys, one key after the other. */
  function Tokens(path: seq<Key>): seq<string> {
    if path == [] then [] else Split(path[0]) + Tokens(path[1..])
  }

  lemma {:induction false} SplitJoin(path: seq<Key>)
    requires path != []
    ensures Split(Join(path)) == Tokens(path)
  {
    if |path| == 1 {
      assert path[1..] == [];
    } else {
      SplitJoin(path[1..]);
      SplitConcat(path[0], Join(path[1..]));
    }
  }

  /** Joining the keys gives the name exactly when the keys' tokens are the name's. */
  lemma JoinIffTokens(path: seq<Key>, name: string)
    requires path != []
    ensures Join(path) == name <==> Tokens(path) == Split(name)
  {
    SplitJoin(path);
    JoinSplit(Join(path));
    JoinSplit(name);
  }

  predicate Plain(tokens: seq<string>) {
    forall i :: 0 <= i < |tokens| ==> '_' !in tokens[i]
  }

  /** Plain tokens survive joining. */
  lemma {:induction false} SplitJoinPlain(tokens: seq<string>)
    requires tokens != [] && Plain(tokens)
    ensures Split(Join(tokens)) == tokens
  {
    SplitJoin(tokens);
    TokensPlain(tokens);
  }

  lemma {:induction false} TokensPlain(tokens: seq<string>)
    requires Plain(tokens)
    ensures Tokens(tokens) == tokens
  {
    if tokens != [] {
      SplitPlain(tokens[0]);
      TokensPlain(tokens[1..]);
    }
  }

  // ----- resolution

  /** The search: keys made of more tokens first, backtracking when one leads nowhere. */
  function Resolve(v: Value, tokens: seq<string>): Option<seq<Key>>
    decreases |tokens|, 1, 0
  {
    if v.Object? then ResolveFrom(v, tokens, |tokens|) else None
  }

  function ResolveFrom(v: Value, tokens: seq<string>, i: nat): Option<seq<Key>>
    requires v.Object? && i <= |tokens|
    decreases |tokens|, 0, i
  {
    if i == 0 then None
    else
      var key := Join(tokens[..i]);
      if key !in v.fields then ResolveFrom(v, tokens, i - 1)
      else if i == |tokens| then Some([key])
      else match Resolve(v.fields[key], tokens[i..])
        case Some(rest) => Some([key] + rest)
        case None => ResolveFrom(v, tokens, i - 1)
  }

  method ResolvePath(v: Value, tokens: seq<string>) returns (r: Option<seq<Key>>)
    ensures r == Resolve(v, tokens)
    decreases |tokens|
  {
    if !v.Object? {
      return None;
    }
    for i := |tokens| downto 0
      invariant Resolve(v, tokens) == ResolveFrom(v, tokens, i)
    {
      var head, tail := tokens[..i + 1], tokens[i + 1..];
      var key := Join(head);
      if key !in v.fields {
        continue;
      }
      if tail == [] {
        return Some([key]);
      }
      var rest := ResolvePath(v.fields[key], tail);
      if rest.Some? {
        return Some([key] + rest.value);
      }
    }
    r := None;
  }

  /** A path that exists in the tree and spells the tokens. */
  ghost predicate Candidate(v: Value, tokens: seq<string>, path: seq<Key>) {
    path != [] && Lookup(v, path).Some? && Tokens(path) == tokens
  }

  /** How many tokens each key of a path takes. */
  function Counts(path: seq<Key>): seq<nat> {
    if path == [] then [] else [|Split(path[0])|] + Counts(path[1..])
  }

  /** Lexicographically at least. */
  predicate AtLeast(a: seq<nat>, b: seq<nat>) {
    b == [] || (a != [] && (a[0] > b[0] || (a[0] == b[0] && AtLeast(a[1..], b[1..]))))
  }

  lemma PlainParts(tokens: seq<string>, i: nat)
    requires Plain(tokens) && i <= |tokens|
    ensures Plain(tokens[..i]) && Plain(tokens[i..])
  {
  }

  /** What is found exists and spells the name; the key found first takes at most `i` tokens. */
  lemma {:induction false} ResolveSound(v: Value, tokens: seq<string>)
    requires Plain(tokens) && Resolve(v, tokens).Some?
    ensures Candidate(v, tokens, Resolve(v, tokens).value)
    decreases |tokens|, 1, 0
  {
    ResolveFromSound(v, tokens, |tokens|);
  }

  lemma {:induction false} ResolveFromSound(v: Value, tokens: seq<string>, i: nat)
    requires Plain(tokens) && v.Object? && i <= |tokens| && ResolveFrom(v, tokens, i).Some?
    ensures Candidate(v, tokens, ResolveFrom(v, tokens, i).value)
    ensures Counts(ResolveFrom(v, tokens, i).value)[0] <= i
    decreases |tokens|, 0, i
  {
    var key := Join(tokens[..i]);
    PlainParts(tokens, i);
    if key in v.fields && i == |tokens| {
      assert tokens[..i] == tokens;
      SplitJoinPlain(tokens);
      assert [key][1..] == [];
      assert Split(key) + [] == tokens;
    } else if key in v.fields && Resolve(v.fields[key], tokens[i..]).Some? {
      ResolveSound(v.fields[key], tokens[i..]);
      SplitJoinPlain(tokens[..i]);
      var rest := Resolve(v.fields[key], tokens[i..]).value;
      assert ([key] + rest)[1..] == rest;
      assert tokens == tokens[..i] + tokens[i..];
    } else {
      ResolveFromSound(v, tokens, i - 1);
    }
  }

  /** Whatever path spells the name, something is found, and nothing beats it. */
  lemma {:induction false} ResolveBest(v: Value, tokens: seq<string>, path: seq<Key>)
    requires Plain(tokens) && Candidate(v, tokens, path)
    ensures Resolve(v, tokens).Some? && AtLeast(Counts(Resolve(v, tokens).value), Counts(path))
    decreases |tokens|, 1, 0
  {
    assert |Split(path[0])| <= |tokens|;
    ResolveFromBest(v, tokens, |tokens|, path);
  }

  lemma {:induction false} ResolveFromBest(v: Value, tokens: seq<string>, i: nat, path: seq<Key>)
    requires Plain(tokens) && Candidate(v, tokens, path) && |Split(path[0])| <= i <= |tokens|
    ensures ResolveFrom(v, tokens, i).Some? && AtLeast(Counts(ResolveFrom(v, tokens, i).value), Counts(path))
    decreases |tokens|, 0, i
  {
    var c := |Split(path[0])|;
    if i == c {
      FirstKey(v, tokens, path);
      if i < |tokens| {
        PlainParts(tokens, i);
        ResolveBest(v.fields[path[0]], tokens[i..], path[1..]);
        var rest := Resolve(v.fields[path[0]], tokens[i..]).value;
        assert ([path[0]] + rest)[1..] == rest;
      } else {
        assert [path[0]][1..] == [] && path[1..] == [];
      }
    } else {
      var key := Join(tokens[..i]);
      PlainParts(tokens, i);
      SplitJoinPlain(tokens[..i]);
      if key !in v.fields || (i < |tokens| && Resolve(v.fields[key], tokens[i..]).None?) {
        ResolveFromBest(v, tokens, i - 1, path);
      } else {
        assert Counts(ResolveFrom(v, tokens, i).value)[0] == i;
      }
    }
  }

  /** A candidate's first key is the join of as many tokens as it takes, and the rest is a candidate below it. */
  lemma FirstKey(v: Value, tokens: seq<string>, path: seq<Key>)
    requires Candidate(v, tokens, path)
    ensures var c := |Split(path[0])|;
      && v.Object? && path[0] in v.fields
      && 1 <= c <= |tokens| && Join(tokens[..c]) == path[0]
      && (c == |tokens| <==> |path| == 1)
      && (c < |tokens| ==> Candidate(v.fields[path[0]], tokens[c..], path[1..]))
  {
    var c := |Split(path[0])|;
    assert tokens[..c] == Split(path[0]) && tokens[c..] == Tokens(path[1..]);
    JoinSplit(path[0]);
    if |path| > 1 {
      assert Split(path[1]) != [];
    }
  }

  /**
   Resolution of a name: what it returns exists in the tree and joins to the
   name; it returns nothing exactly when no path does; and no path that does
   has lexicographically greater key lengths.
   */
  lemma ResolutionIsBest(v: Value, name: string, path: seq<Key>)
    ensures var r := Resolve(v, Split(name));
      && (r.Some? ==> r.value != [] && Lookup(v, r.value).Some? && Join(r.value) == name)
      && (path != [] && Lookup(v, path).Some? && Join(path) == name ==>
            r.Some? && AtLeast(Counts(r.value), Counts(path)))
  {
    hide Split, Join, Tokens, Resolve, Counts, AtLeast, Lookup;
    var tokens := Split(name);
    var r := Resolve(v, tokens);
    if r.Some? {
      ResolveSound(v, tokens);
      JoinIffTokens(r.value, name);
    }
    if path != [] && Lookup(v, path).Some? && Join(path) == name {
      JoinIffTokens(path, name);
      ResolveBest(v, tokens, path);
    }
  }

  // ----- applying the variables

  /** A variable with the prefix: its name, the lower-cased rest of it, and its raw value. */
  datatype Var = Var(name: string, key: string, raw: string)

  predicate CharLe(a: char, b: char) { a <= b }

  predicate StringLe(a: string, b: string) { LexLe(a, b, CharLe) }

  /** The derived order of the tuples that are sorted. */
  predicate VarLe(a: Var, b: Var) {
    LexLe([a.name, a.key, a.raw], [b.name, b.key, b.raw], StringLe)
  }

  lemma StringOrder()
    ensures TotalOrder(StringLe)
  {
    forall a, b
      ensures StringLe(a, a) && (StringLe(a, b) || StringLe(b, a))
      ensures StringLe(a, b) && StringLe(b, a) ==> a == b
    {
      LexRefl(a, CharLe);
      LexTotal(a, b, CharLe);
    }
    forall a, b, c | StringLe(a, b) && StringLe(b, c)
      ensures StringLe(a, c)
    {
      LexTrans(a, b, c, CharLe);
    }
  }

  lemma VarOrder()
    ensures TotalOrder(VarLe)
  {
    StringOrder();
    hide StringLe, LexLe;
    forall a, b
      ensures VarLe(a, a) && (VarLe(a, b) || VarLe(b, a))
      ensures VarLe(a, b) && VarLe(b, a) ==> a == b
    {
      LexRefl([a.name, a.key, a.raw], StringLe);
      LexTotal([a.name, a.key, a.raw], [b.name, b.key, b.raw], StringLe);
      assert [a.name, a.key, a.raw] == [b.name, b.key, b.raw] ==>
          a.name == [b.name, b.key, b.raw][0] && a.key == [b.name, b.key, b.raw][1] && a.raw == [b.name, b.key, b.raw][2];
    }
    forall a, b, c | VarLe(a, b) && VarLe(b, c)
      ensures VarLe(a, c)
    {
      LexTrans([a.name, a.key, a.raw], [b.name, b.key, b.raw], [c.name, c.key, c.raw], StringLe);
    }
  }

  /** The variable an environment entry stands for, if it has the prefix and something after it. */
  function Recognised(entry: (string, string), lower: string -> string): seq<Var> {
    if PREFIX <= entry.0 && lower(entry.0[|PREFIX|..]) != "" then [Var(entry.0, lower(entry.0[|PREFIX|..]), entry.1)]
    else []
  }

  function Relevant(env: seq<(string, string)>, lower: string -> string): seq<Var> {
    if env == [] then [] else Recognised(env[0], lower) + Relevant(env[1..], lower)
  }

  datatype Overrides = Overrides(config: Value, applied: seq<(string, seq<Key>)>, unknown: seq<string>)

  function ApplyVar(o: Overrides, v: Var, parse: (Value, string) -> Value): (r: Overrides)
    ensures o.applied <= r.applied
  {
    match Resolve(o.config, Split(v.key))
    case None => o.(unknown := o.unknown + [v.name])
    case Some(path) =>
      ResolveSound(o.config, Split(v.key));
      o.(config := Replace(o.config, path, parse(Lookup(o.config, path).value, v.raw)),
         applied := o.applied + [(v.name, path)])
  }

  function ApplyVars(o: Overrides, vars: seq<Var>, parse: (Value, string) -> Value): (r: Overrides)
    ensures o.applied <= r.applied
    decreases |vars|
  {
    if vars == [] then o else ApplyVars(ApplyVar(o, vars[0], parse), vars[1..], parse)
  }

  method Apply(config: Value, env: seq<(string, string)>, lower: string -> string, parse: (Value, string) -> Value)
    returns (o: Overrides)
    ensures o == ApplyVars(Overrides(config, [], []), Sort(Relevant(env, lower), VarLe), parse)
  {
    hide Sort, VarLe, Resolve, Replace;
    var vars: seq<Var> := [];
    for i := 0 to |env|
      invariant vars + Relevant(env[i..], lower) == Relevant(env, lower)
    {
      assert env[i..][1..] == env[i + 1..];
      Associative(vars, Recognised(env[i], lower), Relevant(env[i + 1..], lower));
      vars := vars + Recognised(env[i], lower);
    }
    assert vars + [] == vars;
    vars := Sort(vars, VarLe);

    o := Overrides(config, [], []);
    ghost var whole := ApplyVars(o, vars, parse);
    for i := 0 to |vars|
      invariant ApplyVars(o, vars[i..], parse) == whole
    {
      assert vars[i..][1..] == vars[i + 1..];
      var v := vars[i];
      var found := ResolvePath(o.config, Split(v.key));
      match found {
        case None => o := o.(unknown := o.unknown + [v.name]);
        case Some(path) =>
          ResolveSound(o.config, Split(v.key));
          var target := Lookup(o.config, path).value;
          o := o.(config := Replace(o.config, path, parse(target, v.raw)), applied := o.applied + [(v.name, path)]);
      }
    }
  }

  /** Nothing changes at a key path that diverges from every path written. */
  lemma {:induction false} ApplyChangesOnlyResolvedPaths(o: Overrides, vars: seq<Var>, parse: (Value, string) -> Value, q: seq<Key>)
    requires forall i {:trigger ApplyVars(o, vars, parse).applied[i]} ::
      |o.applied| <= i < |ApplyVars(o, vars, parse).applied| ==> Diverges(ApplyVars(o, vars, parse).applied[i].1, q)
    ensures Lookup(ApplyVars(o, vars, parse).config, q) == Lookup(o.config, q)
    decreases |vars|
  {
    if vars != [] {
      var next := ApplyVar(o, vars[0], parse);
      var r := ApplyVars(next, vars[1..], parse);
      assert r == ApplyVars(o, vars, parse);
      ApplyChangesOnlyResolvedPaths(next, vars[1..], parse, q);
      var found := Resolve(o.config, Split(vars[0].key));
      if found.Some? {
        ResolveSound(o.config, Split(vars[0].key));
        var n := |o.applied|;
        assert r.applied[n] == next.applied[n] == (vars[0].name, found.value);
        ReplaceLookup(o.config, found.value, parse(Lookup(o.config, found.value).value, vars[0].raw), q);
      }
    }
  }

  /** A variable whose name resolves sets the value there to what its text parses to; any other only gets reported. */
  lemma OverrideTakesEffect(o: Overrides, v: Var, parse: (Value, string) -> Value)
    ensures var r := ApplyVar(o, v, parse);
      match Resolve(o.config, Split(v.key))
      case None => r.config == o.config && r.applied == o.applied && r.unknown == o.unknown + [v.name]
      case Some(path) =>
        && Lookup(o.config, path).Some?
        && Lookup(r.config, path) == Some(parse(Lookup(o.config, path).value, v.raw))
        && r.applied == o.applied + [(v.name, path)] && r.unknown == o.unknown
  {
    var found := Resolve(o.config, Split(v.key));
    if found.Some? {
      ResolveSound(o.config, Split(v.key));
      hide Resolve, Lookup, Replace;
      ReplaceLookup(o.config, found.value, parse(Lookup(o.config, found.value).value, v.raw), []);
    }
  }

  lemma {:induction false} ApplyVarsAppend(o: Overrides, a: seq<Var>, b: seq<Var>, parse: (Value, string) -> Value)
    ensures ApplyVars(o, a + b, parse) == ApplyVars(ApplyVars(o, a, parse), b, parse)
    decreases |a|
  {
    hide ApplyVar;
    if a == [] {
      assert a + b == b;
    } else {
      assert (a + b)[1..] == a[1..] + b;
      ApplyVarsAppend(ApplyVar(o, a[0], parse), a[1..], b, parse);
    }
  }

  /**
   In the end, every variable that resolved at its turn has its parsed value at its path, unless
   a variable after it wrote to a related path; and which ones resolved is what is reported.
   */
  lemma {:induction false} OverridesTakeEffect(o: Overrides, vars: seq<Var>, parse: (Value, string) -> Value, i: nat)
    requires i < |vars|
    ensures var before := ApplyVars(o, vars[..i], parse);
      var end := ApplyVars(o, vars, parse);
      var n := |before.applied|;
      match Resolve(before.config, Split(vars[i].key))
      case None => before.unknown + [vars[i].name] <= end.unknown
      case Some(path) =>
        && n < |end.applied| && end.applied[n] == (vars[i].name, path)
        && Lookup(before.config, path).Some?
        && ((forall k :: n < k < |end.applied| ==> Diverges(end.applied[k].1, path)) ==>
              Lookup(end.config, path) == Some(parse(Lookup(before.config, path).value, vars[i].raw)))
  {
    hide Resolve, Lookup, Replace, Diverges, ApplyVar, ApplyVars;
    var before := ApplyVars(o, vars[..i], parse);
    var after := ApplyVar(before, vars[i], parse);
    var rest := vars[i + 1..];
    assert vars == vars[..i] + ([vars[i]] + rest);
    ApplyVarsAppend(o, vars[..i], [vars[i]] + rest, parse);
    ApplyNext(before, vars[i], rest, parse);
    OverrideTakesEffect(before, vars[i], parse);
    var end := ApplyVars(after, rest, parse);
    UnknownGrows(after, rest, parse);
    if Resolve(before.config, Split(vars[i].key)).Some? {
      var path := Resolve(before.config, Split(vars[i].key)).value;
      var n := |before.applied|;
      assert end.applied[n] == after.applied[n];
      if forall k :: n < k < |end.applied| ==> Diverges(end.applied[k].1, path) {
        ApplyChangesOnlyResolvedPaths(after, rest, parse, path);
      }
    }
  }

  lemma ApplyNext(o: Overrides, v: Var, rest: seq<Var>, parse: (Value, string) -> Value)
    ensures ApplyVars(o, [v] + rest, parse) == ApplyVars(ApplyVar(o, v, parse), rest, parse)
  {
    hide ApplyVar;
    assert ([v] + rest)[1..] == rest;
  }

  lemma {:induction false} UnknownGrows(o: Overrides, vars: seq<Var>, parse: (Value, string) -> Value)
    ensures o.unknown <= ApplyVars(o, vars, parse).unknown
    decreases |vars|
  {
    if vars != [] {
      UnknownGrows(ApplyVar(o, vars[0], parse), vars[1..], parse);
      OverrideTakesEffect(o, vars[0], parse);
      hide ApplyVar, Resolve, Lookup;
    }
  }

  /** `a` comes before `b` in the dictionary: it is a prefix, or smaller where they first differ. */
  ghost predicate Before(a: string, b: string) {
    a <= b || exists k :: 0 <= k < |a| && k < |b| && a[..k] == b[..k] && a[k] < b[k]
  }

  lemma {:induction false} StringLeIsBefore(a: string, b: string)
    requires StringLe(a, b)
    ensures Before(a, b)
  {
    if a != [] && a[0] == b[0] {
      StringLeIsBefore(a[1..], b[1..]);
      if !(a[1..] <= b[1..]) {
        var k :| 0 <= k < |a[1..]| && k < |b[1..]| && a[1..][..k] == b[1..][..k] && a[1..][k] < b[1..][k];
        assert a[..k + 1] == [a[0]] + a[1..][..k];
        assert b[..k + 1] == [b[0]] + b[1..][..k];
        assert a[k + 1] < b[k + 1];
      } else {
        assert a == [a[0]] + a[1..] && b == [b[0]] + b[1..];
      }
    } else if a != [] {
      assert a[..0] == b[..0];
    }
  }

  /** What is taken from the environment: exactly the entries with the prefix and something after it, in the order of their names. */
  lemma {:induction false} VariablesTaken(env: seq<(string, string)>, lower: string -> string)
    ensures var vars := Sort(Relevant(env, lower), VarLe);
      && (forall i, j :: 0 <= i < j < |vars| ==> Before(vars[i].name, vars[j].name))
      && (forall v :: v in vars <==>
            v.key != "" && exists rest :: lower(rest) == v.key && v.name == PREFIX + rest && (v.name, v.raw) in env)
  {
    var vars := Sort(Relevant(env, lower), VarLe);
    VarOrder();
    SortSorted(Relevant(env, lower), VarLe);
    forall i, j | 0 <= i < j < |vars|
      ensures Before(vars[i].name, vars[j].name)
    {
      NamesFirst(vars[i], vars[j]);
    }
    hide Sort, VarLe, Before;
    forall v
      ensures v in vars <==>
        v.key != "" && exists rest :: lower(rest) == v.key && v.name == PREFIX + rest && (v.name, v.raw) in env
    {
      assert v in vars <==> v in multiset(vars);
      assert v in Relevant(env, lower) <==> v in multiset(Relevant(env, lower));
      RelevantMembers(env, lower, v);
    }
  }

  lemma NamesFirst(a: Var, b: Var)
    requires VarLe(a, b)
    ensures Before(a.name, b.name)
  {
    hide StringLe, Before;
    StringOrder();
    assert StringLe(a.name, b.name);
    StringLeIsBefore(a.name, b.name);
  }

  lemma {:induction false} RelevantMembers(env: seq<(string, string)>, lower: string -> string, v: Var)
    ensures v in Relevant(env, lower) <==>
      v.key != "" && exists rest :: lower(rest) == v.key && v.name == PREFIX + rest && (v.name, v.raw) in env
  {
    if env != [] {
      RelevantMembers(env[1..], lower, v);
      assert forall e :: e in env <==> e == env[0] || e in env[1..];
      RecognisedIs(env[0], lower, v);
      hide Recognised;
    }
  }

  lemma RecognisedIs(entry: (string, string), lower: string -> string, v: Var)
    ensures v in Recognised(entry, lower) <==>
      v.key != "" && exists rest :: lower(rest) == v.key && v.name == PREFIX + rest && (v.name, v.raw) == entry
  {
    if PREFIX <= entry.0 {
      assert entry.0 == PREFIX + entry.0[|PREFIX|..];
    }
    if rest :| lower(rest) == v.key && v.name == PREFIX + rest && (v.name, v.raw) == entry {
      assert entry.0[|PREFIX|..] == rest;
    }
  }

  lemma {:induction false} RelevantAppend(a: seq<(string, string)>, b: seq<(string, string)>, lower: string -> string)
    ensures Relevant(a + b, lower) == Relevant(a, lower) + Relevant(b, lower)
  {
    if a == [] {
      assert a + b == b;
    } else {
      assert (a + b)[1..] == a[1..] + b;
      RelevantAppend(a[1..], b, lower);
    }
  }

  lemma {:induction false} RelevantPermutes(a: seq<(string, string)>, b: seq<(string, string)>, lower: string -> string)
    requires multiset(a) == multiset(b)
    ensures multiset(Relevant(a, lower)) == multiset(Relevant(b, lower))
    decreases |a|
  {
    if a == [] {
      assert |b| == |multiset(b)| == 0;
    } else {
      var j := TakeOut(a, b);
      var front, back := b[..j], b[j + 1..];
      RelevantPermutes(a[1..], front + back, lower);
      hide Recognised;
      RelevantAppend(front, [a[0]] + back, lower);
      RelevantAppend(front, back, lower);
      assert ([a[0]] + back)[1..] == back;
    }
  }

  /** The outcome depends on which variables there are, not on the order they arrive in. */
  lemma {:induction false} OrderIndependent(config: Value, a: seq<(string, string)>, b: seq<(string, string)>,
                         lower: string -> string, parse: (Value, string) -> Value)
    requires multiset(a) == multiset(b)
    ensures ApplyVars(Overrides(config, [], []), Sort(Relevant(a, lower), VarLe), parse)
         == ApplyVars(Overrides(config, [], []), Sort(Relevant(b, lower), VarLe), parse)
  {
    hide VarLe, Relevant, ApplyVars;
    RelevantPermutes(a, b, lower);
    VarOrder();
    SortSorted(Relevant(a, lower), VarLe);
    SortSorted(Relevant(b, lower), VarLe);
    OneSortedOrder(Sort(Relevant(a, lower), VarLe), Sort(Relevant(b, lower), VarLe), VarLe);
  }
}
