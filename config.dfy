/**
 * The Diamond configuration (lib/python/opendiamond/config.py): a registry
 * of parameters indexed by attribute name and by config-file key, and the
 * steps of DiamondConfig.__init__ that set every attribute to its default,
 * read `KEY value` lines, and apply keyword overrides.  The configuration
 * file is given as its sequence of lines (as Python's file iteration yields
 * them, so never empty); the object's attributes are a map from attribute
 * name to value.
 */
module Config {
  import opened Wrappers
  import opened Text

  /** The Python values a parameter can hold. */
  datatype Value = NoneValue | Bool(b: bool) | Int(i: int) | Str(s: string) | List(items: seq<string>)

  /** _Param: attr is None for deprecated keys, configKey is None for parameters not in the file. */
  datatype Param = Param(attr: Option<string>, configKey: Option<string>, default: Value)

  /** _ConfigParams: the two dictionaries. */
  datatype ConfigParams = ConfigParams(byAttr: map<string, Param>, byKey: map<string, Param>)

  /** DiamondConfigError and AttributeError, with their messages. */
  datatype Failure = DiamondConfigError(msg: string) | AttributeError(msg: string)

  /** The attributes of a DiamondConfig object. */
  type Attrs = map<string, Value>

  // ---------------------------------------------------------------------
  // _ConfigParams

  /** The two names a parameter can be filed under. */
  datatype Field = AttrName | KeyName

  /** The name of `p` under `f`: its attribute or its config key. */
  function NameOf(p: Param, f: Field): Option<string>
  {
    match f
    case AttrName => p.attr
    case KeyName => p.configKey
  }

  /** params[i] is the last parameter whose name under `f` is `s`. */
  predicate LastWith(params: seq<Param>, f: Field, i: int, s: string)
  {
    0 <= i < |params| && NameOf(params[i], f) == Some(s) &&
    forall j :: i < j < |params| ==> NameOf(params[j], f) != Some(s)
  }

  /**
   * The dictionary that files each parameter of `params` having a name
   * under `f` under that name, a later parameter replacing an earlier one.
   */
  function Index(params: seq<Param>, f: Field): (m: map<string, Param>)
    ensures forall s :: s in m ==> NameOf(m[s], f) == Some(s)
    decreases |params|
  {
    if params == [] then map[]
    else
      var m := Index(params[..|params| - 1], f);
      var p := params[|params| - 1];
      match NameOf(p, f)
      case Some(s) => m[s := p]
      case None => m
  }

  /** The registry _ConfigParams builds from `params`. */
  function Registry(params: seq<Param>): ConfigParams
  {
    ConfigParams(Index(params, AttrName), Index(params, KeyName))
  }

  /** No two parameters share an attribute name or a config key. */
  predicate DistinctParams(params: seq<Param>)
  {
    forall i, j :: 0 <= i < j < |params| ==>
      (params[i].attr.Some? ==> params[i].attr != params[j].attr) &&
      (params[i].configKey.Some? ==> params[i].configKey != params[j].configKey)
  }

  /**
   * The registry is consistent: each entry is filed under its own name, and
   * a key's parameter with an attribute is the one registered for that attribute.
   */
  predicate Consistent(cp: ConfigParams)
  {
    (forall a :: a in cp.byAttr ==> cp.byAttr[a].attr == Some(a)) &&
    (forall k :: k in cp.byKey ==> cp.byKey[k].configKey == Some(k)) &&
    (forall k :: k in cp.byKey && cp.byKey[k].attr.Some? ==>
       cp.byKey[k].attr.value in cp.byAttr && cp.byAttr[cp.byKey[k].attr.value] == cp.byKey[k])
  }

  /** A name is filed exactly when some parameter carries it. */
  lemma {:induction false} IndexNames(params: seq<Param>, f: Field, s: string)
    ensures s in Index(params, f) <==> exists i :: 0 <= i < |params| && NameOf(params[i], f) == Some(s)
    decreases |params|
  {
    if params != [] {
      var init := params[..|params| - 1];
      IndexNames(init, f, s);
      if s in Index(init, f) {
        var i :| 0 <= i < |init| && NameOf(init[i], f) == Some(s);
        assert NameOf(params[i], f) == Some(s);
      }
      if exists i :: 0 <= i < |params| && NameOf(params[i], f) == Some(s) {
        var i :| 0 <= i < |params| && NameOf(params[i], f) == Some(s);
        if i < |init| {
          assert NameOf(init[i], f) == Some(s);
        }
      }
    }
  }

  /** The entry filed under a name is the last parameter carrying that name. */
  lemma {:induction false} IndexLast(params: seq<Param>, f: Field, i: int, s: string)
    requires LastWith(params, f, i, s)
    ensures s in Index(params, f) && Index(params, f)[s] == params[i]
    decreases |params|
  {
    var init := params[..|params| - 1];
    if i < |init| {
      assert LastWith(init, f, i, s);
      IndexLast(init, f, i, s);
    }
  }

  /** Without repeated names, every parameter carrying a name is the last one with it. */
  lemma DistinctLast(params: seq<Param>, f: Field, i: int, s: string)
    requires DistinctParams(params)
    requires 0 <= i < |params| && NameOf(params[i], f) == Some(s)
    ensures LastWith(params, f, i, s)
  {
  }

  /** With distinct names, the registry of the whole table is consistent. */
  lemma DistinctRegistryConsistent(params: seq<Param>)
    requires DistinctParams(params)
    ensures Consistent(Registry(params))
  {
    var cp := Registry(params);
    forall k | k in cp.byKey && cp.byKey[k].attr.Some?
      ensures cp.byKey[k].attr.value in cp.byAttr && cp.byAttr[cp.byKey[k].attr.value] == cp.byKey[k]
    {
      IndexNames(params, KeyName, k);
      var i :| 0 <= i < |params| && NameOf(params[i], KeyName) == Some(k);
      DistinctLast(params, KeyName, i, k);
      IndexLast(params, KeyName, i, k);
      var a := params[i].attr.value;
      DistinctLast(params, AttrName, i, a);
      IndexLast(params, AttrName, i, a);
    }
  }

  /**
   * _ConfigParams.__init__: files every parameter with an attribute under
   * that attribute and every parameter with a key under that key; a later
   * parameter replaces an earlier one with the same name.
   */
  method NewConfigParams(params: seq<Param>) returns (cp: ConfigParams)
    ensures cp == Registry(params)
  {
    var byAttr: map<string, Param> := map[];
    var byKey: map<string, Param> := map[];
    var n := 0;
    while n < |params|
      invariant 0 <= n <= |params|
      invariant byAttr == Index(params[..n], AttrName)
      invariant byKey == Index(params[..n], KeyName)
    {
      var param := params[n];
      assert params[..n + 1][..n] == params[..n];
      if param.attr.Some? {
        byAttr := byAttr[param.attr.value := param];
      }
      if param.configKey.Some? {
        byKey := byKey[param.configKey.value := param];
      }
      n := n + 1;
    }
    assert params[..n] == params;
    cp := ConfigParams(byAttr, byKey);
  }

  /** _ConfigParams.has_attr. */
  function HasAttr(cp: ConfigParams, attr: string): bool
  {
    attr in cp.byAttr
  }

  /** _ConfigParams.get_key: None stands for the KeyError of an unknown key. */
  function GetKey(cp: ConfigParams, key: string): Option<Param>
  {
    if key in cp.byKey then Some(cp.byKey[key]) else None
  }

  /** has_attr on the registry of a table: some parameter of the table has that attribute. */
  lemma RegistryHasAttr(params: seq<Param>, attr: string)
    ensures HasAttr(Registry(params), attr) <==> exists i :: 0 <= i < |params| && params[i].attr == Some(attr)
  {
    IndexNames(params, AttrName, attr);
    assert forall i :: 0 <= i < |params| ==> NameOf(params[i], AttrName) == params[i].attr;
  }

  /**
   * get_key on the registry of a table: a KeyError exactly when no
   * parameter has that key, and otherwise the last parameter that has it.
   */
  lemma RegistryGetKey(params: seq<Param>, key: string)
    ensures GetKey(Registry(params), key).None? <==>
            forall i :: 0 <= i < |params| ==> params[i].configKey != Some(key)
    ensures forall i :: LastWith(params, KeyName, i, key) ==> GetKey(Registry(params), key) == Some(params[i])
  {
    IndexNames(params, KeyName, key);
    assert forall i :: 0 <= i < |params| ==> NameOf(params[i], KeyName) == params[i].configKey;
    forall i | LastWith(params, KeyName, i, key)
      ensures GetKey(Registry(params), key) == Some(params[i])
    {
      IndexLast(params, KeyName, i, key);
    }
  }

  // ---------------------------------------------------------------------
  // Defaults

  /** Every attribute at its parameter's default. */
  function Defaults(cp: ConfigParams): Attrs
  {
    map a | a in cp.byAttr :: cp.byAttr[a].default
  }

  /** The "Set defaults" loop: setattr(self, attr, default) for every parameter with an attribute. */
  method SetDefaults(cp: ConfigParams) returns (attrs: Attrs)
    ensures attrs.Keys == cp.byAttr.Keys
    ensures forall a :: a in attrs ==> attrs[a] == cp.byAttr[a].default
  {
    attrs := map[];
    var todo := cp.byAttr.Keys;
    while todo != {}
      invariant todo <= cp.byAttr.Keys
      invariant attrs.Keys == cp.byAttr.Keys - todo
      invariant forall a :: a in attrs ==> attrs[a] == cp.byAttr[a].default
      decreases |todo|
    {
      var a :| a in todo;
      attrs := attrs[a := cp.byAttr[a].default];
      todo := todo - {a};
    }
  }

  /**
   * The default worker-thread count: the online processor count but at
   * least 2, or 2 when the count is unavailable (None).
   */
  function DefaultThreads(cpus: Option<int>): (n: int)
    ensures n >= 2
    ensures cpus.Some? ==> n >= cpus.value
    ensures n == 2 || cpus == Some(n)
  {
    match cpus
    case Some(c) => if c > 2 then c else 2
    case None => 2
  }

  // ---------------------------------------------------------------------
  // One line of the file

  /** The length of the word at the front of `s`. */
  function WordEnd(s: string): (n: nat)
    ensures n <= |s| && NoSpace(s[..n])
    ensures n == |s| || IsSpace(s[n])
  {
    if s == [] || IsSpace(s[0]) then 0 else 1 + WordEnd(s[1..])
  }

  /**
   * line.split(None, 1) when it yields exactly two parts: the first word
   * and the rest of the line after the white space that follows it.
   * None when there are fewer than two words (unpacking raises ValueError).
   */
  function SplitKeyValue(line: string): (r: Option<(string, string)>)
    ensures r.Some? ==> |r.value.0| > 0 && NoSpace(r.value.0)
    ensures r.Some? ==> |r.value.1| > 0 && !IsSpace(r.value.1[0])
  {
    var a := LStrip(line);
    if a == [] then None
    else
      var n := WordEnd(a);
      var rest := LStrip(a[n..]);
      if rest == [] then None else Some((a[..n], rest))
  }

  lemma {:induction false} WordEndOf(k: string, rest: string)
    requires NoSpace(k) && (rest == [] || IsSpace(rest[0]))
    ensures WordEnd(k + rest) == |k|
  {
    if k != [] {
      assert (k + rest)[1..] == k[1..] + rest;
      WordEndOf(k[1..], rest);
    } else {
      assert k + rest == rest;
    }
  }

  /** A line "KEY value" (with any white space around KEY) splits into KEY and value. */
  lemma SplitKeyLine(ws1: string, k: string, ws2: string, v: string)
    requires AllSpace(ws1) && |k| > 0 && NoSpace(k)
    requires |ws2| > 0 && AllSpace(ws2) && |v| > 0 && !IsSpace(v[0])
    ensures SplitKeyValue(ws1 + k + ws2 + v) == Some((k, v))
  {
    var a := k + ws2 + v;
    assert LStrip(ws1 + k + ws2 + v) == a by {
      assert ws1 + k + ws2 + v == ws1 + a;
      LStripSkipsSpace(ws1, a);
      LStripNoLeading(a);
    }
    assert WordEnd(a) == |k| by {
      assert a == k + (ws2 + v);
      WordEndOf(k, ws2 + v);
    }
    assert a[..|k|] == k && a[|k|..] == ws2 + v;
    assert LStrip(ws2 + v) == v by {
      LStripSkipsSpace(ws2, v);
      LStripNoLeading(v);
    }
    SplitAt(ws1 + k + ws2 + v, a, |k|);
  }

  /** How SplitKeyValue reads a line whose stripped form is `a` and whose first word has length `n`. */
  lemma SplitAt(line: string, a: string, n: nat)
    requires LStrip(line) == a && WordEnd(a) == n
    ensures a == [] ==> SplitKeyValue(line) == None
    ensures a != [] ==>
      SplitKeyValue(line) == if LStrip(a[n..]) == [] then None else Some((a[..n], LStrip(a[n..])))
  {
  }

  /** A line with fewer than two words (a lone key, or only white space) does not split. */
  lemma SplitLoneKey(ws1: string, k: string, ws2: string)
    requires AllSpace(ws1) && NoSpace(k) && AllSpace(ws2)
    ensures SplitKeyValue(ws1 + k + ws2) == None
  {
    assert LStrip(ws1 + k + ws2) == LStrip(k + ws2) by {
      assert ws1 + k + ws2 == ws1 + (k + ws2);
      LStripSkipsSpace(ws1, k + ws2);
    }
    assert LStrip(ws2) == [] by {
      assert ws2 == ws2 + [];
      LStripSkipsSpace(ws2, []);
    }
    if k != [] {
      assert LStrip(k + ws2) == k + ws2 by {
        LStripNoLeading(k + ws2);
      }
      assert WordEnd(k + ws2) == |k| by {
        WordEndOf(k, ws2);
      }
      assert (k + ws2)[|k|..] == ws2;
      SplitAt(ws1 + k + ws2, k + ws2, |k|);
    } else {
      assert k + ws2 == ws2;
      SplitAt(ws1 + k + ws2, [], 0);
    }
  }

  /** The attributes fit the registry: exactly the registered ones, list parameters holding lists. */
  predicate Conforms(cp: ConfigParams, attrs: Attrs)
  {
    attrs.Keys == cp.byAttr.Keys &&
    forall a :: a in attrs && cp.byAttr[a].default.List? ==> attrs[a].List?
  }

  /** The message of the syntax error for `line`. */
  function SyntaxError(line: string): Failure
  {
    DiamondConfigError("Syntax error: " + Strip(line))
  }

  /** How a value read for the parameter with attribute `a` changes the attributes. */
  function StoreValue(cp: ConfigParams, attrs: Attrs, line: string, a: string, value: string): (r: Result<Attrs, Failure>)
    requires Conforms(cp, attrs) && a in cp.byAttr
    ensures r.Ok? ==> Conforms(cp, r.value)
  {
    var default := cp.byAttr[a].default;
    if default.List? then Ok(attrs[a := List(attrs[a].items + [value])])
    else if default.Int? || default.Bool? then
      match ParseInt(value)
      case None => Err(SyntaxError(line))
      case Some(n) => Ok(attrs[a := Int(n)])
    else Ok(attrs[a := Str(value)])
  }

  /** One pass of the file loop: the effect of one line on the attributes. */
  function ApplyLine(cp: ConfigParams, attrs: Attrs, line: string): (r: Result<Attrs, Failure>)
    requires Consistent(cp) && Conforms(cp, attrs) && line != []
    ensures r.Ok? ==> Conforms(cp, r.value)
  {
    if line[0] == '#' then Ok(attrs)
    else match SplitKeyValue(line)
      case None => Err(SyntaxError(line))
      case Some((key, raw)) =>
        if key !in cp.byKey then Err(DiamondConfigError("Unknown config key: " + key))
        else match cp.byKey[key].attr
          case None => Ok(attrs)
          case Some(a) => StoreValue(cp, attrs, line, a, Strip(raw))
  }

  /** The file loop: lines in order, stopping at the first error. */
  function ParseLines(cp: ConfigParams, attrs: Attrs, lines: seq<string>): (r: Result<Attrs, Failure>)
    requires Consistent(cp) && Conforms(cp, attrs)
    requires forall i :: 0 <= i < |lines| ==> lines[i] != []
    ensures r.Ok? ==> Conforms(cp, r.value)
    decreases |lines|
  {
    if lines == [] then Ok(attrs)
    else match ApplyLine(cp, attrs, lines[0])
      case Err(e) => Err(e)
      case Ok(next) => ParseLines(cp, next, lines[1..])
  }

  // ---------------------------------------------------------------------
  // Keyword overrides

  /** The keyword arguments, in the order the dictionary yields them. */
  type Kwargs = seq<(string, Value)>

  /** The keywords given. */
  ghost function KwargsKeys(kw: Kwargs): set<string>
  {
    set i | 0 <= i < |kw| :: kw[i].0
  }

  /** The keyword arguments as a dictionary (a later item for the same key would win). */
  function KwargsMap(kw: Kwargs): (m: map<string, Value>)
    ensures forall i :: 0 <= i < |kw| ==> kw[i].0 in m
    decreases |kw|
  {
    if kw == [] then map[]
    else KwargsMap(kw[..|kw| - 1])[kw[|kw| - 1].0 := kw[|kw| - 1].1]
  }

  /** The dictionary holds exactly the keywords given. */
  lemma {:induction false} KwargsMapKeys(kw: Kwargs)
    ensures KwargsMap(kw).Keys == KwargsKeys(kw)
    decreases |kw|
  {
    if kw != [] {
      var init := kw[..|kw| - 1];
      KwargsMapKeys(init);
      assert KwargsKeys(kw) == KwargsKeys(init) + {kw[|kw| - 1].0} by {
        forall k | k in KwargsKeys(kw)
          ensures k in KwargsKeys(init) + {kw[|kw| - 1].0}
        {
          var i :| 0 <= i < |kw| && kw[i].0 == k;
          if i < |init| {
            assert init[i].0 == k;
          }
        }
      }
    }
  }

  /** The value of a keyword is the one given with it last. */
  lemma {:induction false} KwargsMapValue(kw: Kwargs, i: int)
    requires 0 <= i < |kw|
    requires forall j :: i < j < |kw| ==> kw[j].0 != kw[i].0
    ensures KwargsMap(kw)[kw[i].0] == kw[i].1
    decreases |kw|
  {
    if i < |kw| - 1 {
      KwargsMapValue(kw[..|kw| - 1], i);
    }
  }

  /** The position of the first keyword that is not a registered attribute (|kw| if none). */
  function FirstInvalid(cp: ConfigParams, kw: Kwargs): (k: nat)
    ensures k <= |kw|
    ensures forall i :: 0 <= i < k ==> kw[i].0 in cp.byAttr
    ensures k < |kw| ==> kw[k].0 !in cp.byAttr
    decreases |kw|
  {
    if kw == [] || kw[0].0 !in cp.byAttr then 0 else 1 + FirstInvalid(cp, kw[1..])
  }

  /** The first invalid keyword is the one after a run of valid ones. */
  lemma FirstInvalidAt(cp: ConfigParams, kw: Kwargs, i: nat)
    requires i <= |kw| && forall j :: 0 <= j < i ==> kw[j].0 in cp.byAttr
    requires i < |kw| ==> kw[i].0 !in cp.byAttr
    ensures FirstInvalid(cp, kw) == i
  {
  }

  /** There is no invalid keyword exactly when every keyword names a registered attribute. */
  lemma AllKeywordsValid(cp: ConfigParams, kw: Kwargs)
    ensures FirstInvalid(cp, kw) == |kw| <==> KwargsKeys(kw) <= cp.byAttr.Keys
  {
    var k := FirstInvalid(cp, kw);
    if k < |kw| {
      assert kw[k].0 in KwargsKeys(kw);
    } else {
      forall a | a in KwargsKeys(kw)
        ensures a in cp.byAttr
      {
        var i :| 0 <= i < |kw| && kw[i].0 == a;
      }
    }
  }

  /** The AttributeError of an override naming an unknown attribute. */
  function OverrideError(attr: string): Failure
  {
    AttributeError("Could not override invalid attribute " + attr)
  }

  /**
   * The override loop over the keyword arguments: every keyword names a
   * registered attribute and replaces its value, or AttributeError names
   * the first that does not.
   */
  method ApplyOverrides(cp: ConfigParams, attrs: Attrs, kw: Kwargs)
    returns (r: Result<Attrs, Failure>)
    ensures FirstInvalid(cp, kw) == |kw| ==> r == Ok(attrs + KwargsMap(kw))
    ensures FirstInvalid(cp, kw) < |kw| ==> r == Err(OverrideError(kw[FirstInvalid(cp, kw)].0))
  {
    var result := attrs;
    for i := 0 to |kw|
      invariant forall j :: 0 <= j < i ==> kw[j].0 in cp.byAttr
      invariant result == attrs + KwargsMap(kw[..i])
    {
      var (attr, value) := kw[i];
      if !HasAttr(cp, attr) {
        FirstInvalidAt(cp, kw, i);
        return Err(OverrideError(attr));
      }
      assert kw[..i + 1][..i] == kw[..i];
      result := result[attr := value];
    }
    FirstInvalidAt(cp, kw, |kw|);
    assert kw[..|kw|] == kw;
    return Ok(result);
  }

  // ---------------------------------------------------------------------
  // DiamondConfig.__init__ (defaults, file, overrides)

  /**
   * The default, parse and override steps of DiamondConfig.__init__ over a
   * consistent registry: the attributes, or the exception raised.
   */
  method LoadConfig(cp: ConfigParams, lines: seq<string>, kw: Kwargs)
    returns (r: Result<Attrs, Failure>)
    requires Consistent(cp)
    requires forall i :: 0 <= i < |lines| ==> lines[i] != []
    ensures ParseLines(cp, Defaults(cp), lines).Err? ==> r == ParseLines(cp, Defaults(cp), lines)
    ensures ParseLines(cp, Defaults(cp), lines).Ok? && FirstInvalid(cp, kw) == |kw| ==>
              r == Ok(ParseLines(cp, Defaults(cp), lines).value + KwargsMap(kw))
    ensures ParseLines(cp, Defaults(cp), lines).Ok? && FirstInvalid(cp, kw) < |kw| ==>
              r == Err(OverrideError(kw[FirstInvalid(cp, kw)].0))
  {
    var attrs := SetDefaults(cp);
    assert attrs == Defaults(cp);
    ghost var parsed := ParseLines(cp, attrs, lines);
    var n := 0;
    while n < |lines|
      invariant 0 <= n <= |lines|
      invariant Conforms(cp, attrs)
      invariant ParseLines(cp, attrs, lines[n..]) == parsed
    {
      var line := lines[n];
      assert lines[n..][0] == line && lines[n..][1..] == lines[n + 1..];
      if line[0] == '#' {
        n := n + 1;
        continue;
      }
      var parts := SplitKeyValue(line);
      if parts.None? {
        return Err(SyntaxError(line));
      }
      var (key, raw) := parts.value;
      var value := Strip(raw);
      if key !in cp.byKey {
        return Err(DiamondConfigError("Unknown config key: " + key));
      }
      var param := cp.byKey[key];
      if param.attr.Some? {
        var a := param.attr.value;
        if param.default.List? {
          attrs := attrs[a := List(attrs[a].items + [value])];
        } else if param.default.Int? || param.default.Bool? {
          var parsedInt := ParseInt(value);
          if parsedInt.None? {
            return Err(SyntaxError(line));
          }
          attrs := attrs[a := Int(parsedInt.value)];
        } else {
          attrs := attrs[a := Str(value)];
        }
      }
      n := n + 1;
    }
    r := ApplyOverrides(cp, attrs, kw);
  }

  // ---------------------------------------------------------------------
  // What the file loop does with each kind of line

  /** Lines starting with '#' change nothing. */
  lemma CommentLineIgnored(cp: ConfigParams, attrs: Attrs, line: string)
    requires Consistent(cp) && Conforms(cp, attrs)
    requires line != [] && line[0] == '#'
    ensures ApplyLine(cp, attrs, line) == Ok(attrs)
  {
  }

  /** A line holding at most one word (a lone key, or a blank line) is a syntax error. */
  lemma LoneKeyIsSyntaxError(cp: ConfigParams, attrs: Attrs, ws1: string, k: string, ws2: string)
    requires Consistent(cp) && Conforms(cp, attrs)
    requires AllSpace(ws1) && NoSpace(k) && AllSpace(ws2)
    requires ws1 + k + ws2 != [] && (ws1 + k + ws2)[0] != '#'
    ensures ApplyLine(cp, attrs, ws1 + k + ws2) ==
            Err(DiamondConfigError("Syntax error: " + Strip(ws1 + k + ws2)))
  {
    SplitLoneKey(ws1, k, ws2);
  }

  /** A line "KEY value": the key and the stripped value reach the registry lookup. */
  lemma KeyValueLine(cp: ConfigParams, attrs: Attrs, ws1: string, k: string, ws2: string, v: string)
    requires Consistent(cp) && Conforms(cp, attrs)
    requires AllSpace(ws1) && |k| > 0 && NoSpace(k) && k[0] != '#'
    requires |ws2| > 0 && AllSpace(ws2) && |v| > 0 && !IsSpace(v[0])
    ensures ws1 + k + ws2 + v != [] && (ws1 + k + ws2 + v)[0] != '#'
    ensures SplitKeyValue(ws1 + k + ws2 + v) == Some((k, v))
  {
    SplitKeyLine(ws1, k, ws2, v);
    var line := ws1 + k + ws2 + v;
    if ws1 != [] {
      assert line[0] == ws1[0] && IsSpace(ws1[0]);
    } else {
      assert line[0] == k[0];
    }
  }

  /** An unknown key is rejected with its name in the message. */
  lemma UnknownKeyRejected(cp: ConfigParams, attrs: Attrs, ws1: string, k: string, ws2: string, v: string)
    requires Consistent(cp) && Conforms(cp, attrs)
    requires AllSpace(ws1) && |k| > 0 && NoSpace(k) && k[0] != '#'
    requires |ws2| > 0 && AllSpace(ws2) && |v| > 0 && !IsSpace(v[0])
    requires k !in cp.byKey
    ensures ApplyLine(cp, attrs, ws1 + k + ws2 + v) == Err(DiamondConfigError("Unknown config key: " + k))
  {
    KeyValueLine(cp, attrs, ws1, k, ws2, v);
  }

  /** A deprecated key (one without an attribute) is accepted and changes nothing. */
  lemma DeprecatedKeyIgnored(cp: ConfigParams, attrs: Attrs, ws1: string, k: string, ws2: string, v: string)
    requires Consistent(cp) && Conforms(cp, attrs)
    requires AllSpace(ws1) && |k| > 0 && NoSpace(k) && k[0] != '#'
    requires |ws2| > 0 && AllSpace(ws2) && |v| > 0 && !IsSpace(v[0])
    requires k in cp.byKey && cp.byKey[k].attr.None?
    ensures ApplyLine(cp, attrs, ws1 + k + ws2 + v) == Ok(attrs)
  {
    KeyValueLine(cp, attrs, ws1, k, ws2, v);
  }

  /**
   * A key whose parameter has an integer (or boolean) default takes the
   * value parsed by int(), and a value int() rejects is a syntax error.
   */
  lemma IntValueParsed(cp: ConfigParams, attrs: Attrs, ws1: string, k: string, ws2: string, v: string)
    requires Consistent(cp) && Conforms(cp, attrs)
    requires AllSpace(ws1) && |k| > 0 && NoSpace(k) && k[0] != '#'
    requires |ws2| > 0 && AllSpace(ws2) && |v| > 0 && !IsSpace(v[0])
    requires k in cp.byKey && cp.byKey[k].attr.Some?
    requires cp.byKey[k].default.Int? || cp.byKey[k].default.Bool?
    ensures var r := ApplyLine(cp, attrs, ws1 + k + ws2 + v);
            match ParseInt(Strip(v))
            case Some(n) => r == Ok(attrs[cp.byKey[k].attr.value := Int(n)])
            case None => r == Err(DiamondConfigError("Syntax error: " + Strip(ws1 + k + ws2 + v)))
  {
    KeyValueLine(cp, attrs, ws1, k, ws2, v);
  }

  /** The canonical line for key `k` and value `v`. */
  function KeyLine(k: string, v: string): string
  {
    k + " " + v
  }

  /** A well-formed key: one word, not a comment marker. */
  predicate GoodKey(k: string)
  {
    |k| > 0 && NoSpace(k) && k[0] != '#'
  }

  /** A well-formed value: non-empty, starting with a non-space character. */
  predicate GoodValue(v: string)
  {
    |v| > 0 && !IsSpace(v[0])
  }

  /** The lines "k vs[0]", "k vs[1]", ... */
  function KeyLines(k: string, vs: seq<string>): (ls: seq<string>)
    ensures |ls| == |vs|
    ensures forall i :: 0 <= i < |vs| ==> ls[i] == KeyLine(k, vs[i]) && ls[i] != []
  {
    seq(|vs|, i requires 0 <= i < |vs| => KeyLine(k, vs[i]))
  }

  /** The stripped values, in order. */
  function StripAll(vs: seq<string>): (r: seq<string>)
    ensures |r| == |vs|
  {
    if vs == [] then [] else [Strip(vs[0])] + StripAll(vs[1..])
  }

  /** One canonical line for a key with an attribute stores its stripped value. */
  lemma KeyLineStores(cp: ConfigParams, attrs: Attrs, k: string, v: string)
    requires Consistent(cp) && Conforms(cp, attrs)
    requires GoodKey(k) && GoodValue(v) && k in cp.byKey && cp.byKey[k].attr.Some?
    ensures cp.byKey[k].attr.value in cp.byAttr
    ensures ApplyLine(cp, attrs, KeyLine(k, v)) ==
            StoreValue(cp, attrs, KeyLine(k, v), cp.byKey[k].attr.value, Strip(v))
  {
    assert AllSpace(" ");
    KeyValueLine(cp, attrs, [], k, " ", v);
    assert [] + k + " " + v == KeyLine(k, v);
  }

  /** A second update of the same attribute hides the first. */
  lemma UpdateTwice(attrs: Attrs, a: string, x: Value, y: Value)
    ensures attrs[a := x][a := y] == attrs[a := y]
  {
    var lhs := attrs[a := x][a := y];
    var rhs := attrs[a := y];
    assert lhs.Keys == rhs.Keys;
    assert forall b :: b in lhs ==> lhs[b] == rhs[b];
  }

  /** The file loop after a line that was accepted continues from that line's result. */
  lemma ParseLinesStep(cp: ConfigParams, attrs: Attrs, lines: seq<string>, next: Attrs)
    requires Consistent(cp) && Conforms(cp, attrs)
    requires forall i :: 0 <= i < |lines| ==> lines[i] != []
    requires lines != [] && ApplyLine(cp, attrs, lines[0]) == Ok(next)
    ensures Conforms(cp, next)
    ensures ParseLines(cp, attrs, lines) == ParseLines(cp, next, lines[1..])
  {
  }

  /** A canonical line for a list parameter appends its stripped value. */
  lemma ListLineAppends(cp: ConfigParams, attrs: Attrs, k: string, v: string)
    requires Consistent(cp) && Conforms(cp, attrs)
    requires GoodKey(k) && GoodValue(v) && k in cp.byKey && cp.byKey[k].attr.Some? && cp.byKey[k].default.List?
    ensures cp.byKey[k].attr.value in attrs && attrs[cp.byKey[k].attr.value].List?
    ensures var a := cp.byKey[k].attr.value;
            ApplyLine(cp, attrs, KeyLine(k, v)) == Ok(attrs[a := List(attrs[a].items + [Strip(v)])])
  {
    KeyLineStores(cp, attrs, k, v);
  }

  /** A canonical line for a string parameter sets its stripped value. */
  lemma StrLineSets(cp: ConfigParams, attrs: Attrs, k: string, v: string)
    requires Consistent(cp) && Conforms(cp, attrs)
    requires GoodKey(k) && GoodValue(v) && k in cp.byKey && cp.byKey[k].attr.Some?
    requires !cp.byKey[k].default.List? && !cp.byKey[k].default.Int? && !cp.byKey[k].default.Bool?
    ensures ApplyLine(cp, attrs, KeyLine(k, v)) == Ok(attrs[cp.byKey[k].attr.value := Str(Strip(v))])
  {
    KeyLineStores(cp, attrs, k, v);
  }

  /** One step of ListValuesAccumulate: the first line, then the rest as the hypothesis gives it. */
  lemma ListStep(cp: ConfigParams, attrs: Attrs, k: string, vs: seq<string>, next: Attrs)
    requires Consistent(cp) && Conforms(cp, attrs)
    requires GoodKey(k) && k in cp.byKey && cp.byKey[k].attr.Some? && cp.byKey[k].default.List?
    requires vs != [] && forall i :: 0 <= i < |vs| ==> GoodValue(vs[i])
    requires cp.byKey[k].attr.value in attrs && attrs[cp.byKey[k].attr.value].List?
    requires var a := cp.byKey[k].attr.value;
             next == attrs[a := List(attrs[a].items + [Strip(vs[0])])]
    requires Conforms(cp, next)
    requires var a := cp.byKey[k].attr.value;
             ParseLines(cp, next, KeyLines(k, vs[1..])) == Ok(next[a := List(next[a].items + StripAll(vs[1..]))])
    ensures var a := cp.byKey[k].attr.value;
            ParseLines(cp, attrs, KeyLines(k, vs)) == Ok(attrs[a := List(attrs[a].items + StripAll(vs))])
  {
    var a := cp.byKey[k].attr.value;
    ListLineAppends(cp, attrs, k, vs[0]);
    var lines := KeyLines(k, vs);
    KeyLinesTail(k, vs);
    ParseLinesStep(cp, attrs, lines, next);
    AppendTwice(attrs, a, attrs[a].items, Strip(vs[0]), StripAll(vs[1..]));
  }

  /** The lines after the first are the lines of the other values. */
  lemma KeyLinesTail(k: string, vs: seq<string>)
    requires vs != []
    ensures KeyLines(k, vs)[1..] == KeyLines(k, vs[1..])
  {
  }

  /** Appending x and then more to a list attribute is appending all at once. */
  lemma AppendTwice(attrs: Attrs, a: string, items: seq<string>, x: string, more: seq<string>)
    ensures attrs[a := List(items + [x])][a := List(items + [x] + more)] == attrs[a := List(items + ([x] + more))]
  {
    assert items + [x] + more == items + ([x] + more);
    UpdateTwice(attrs, a, List(items + [x]), List(items + [x] + more));
  }

  /** A list parameter (SERVERID) accumulates the stripped values of its lines in file order. */
  lemma {:induction false} ListValuesAccumulate(cp: ConfigParams, attrs: Attrs, k: string, vs: seq<string>)
    requires Consistent(cp) && Conforms(cp, attrs)
    requires GoodKey(k) && k in cp.byKey && cp.byKey[k].attr.Some? && cp.byKey[k].default.List?
    requires forall i :: 0 <= i < |vs| ==> GoodValue(vs[i])
    ensures cp.byKey[k].attr.value in attrs && attrs[cp.byKey[k].attr.value].List?
    ensures var a := cp.byKey[k].attr.value;
            ParseLines(cp, attrs, KeyLines(k, vs)) ==
              Ok(attrs[a := List(attrs[a].items + StripAll(vs))])
    decreases |vs|
  {
    var a := cp.byKey[k].attr.value;
    if vs == [] {
      assert attrs[a].items + StripAll(vs) == attrs[a].items;
      assert attrs[a := List(attrs[a].items)] == attrs;
    } else {
      var next := attrs[a := List(attrs[a].items + [Strip(vs[0])])];
      ListValuesAccumulate(cp, next, k, vs[1..]);
      ListStep(cp, attrs, k, vs, next);
    }
  }

  /** Any other parameter (neither list nor integer) keeps the stripped value of its last line. */
  lemma {:induction false} StringLastWins(cp: ConfigParams, attrs: Attrs, k: string, vs: seq<string>)
    requires Consistent(cp) && Conforms(cp, attrs)
    requires GoodKey(k) && k in cp.byKey && cp.byKey[k].attr.Some?
    requires !cp.byKey[k].default.List? && !cp.byKey[k].default.Int? && !cp.byKey[k].default.Bool?
    requires |vs| > 0 && forall i :: 0 <= i < |vs| ==> GoodValue(vs[i])
    ensures ParseLines(cp, attrs, KeyLines(k, vs)) ==
            Ok(attrs[cp.byKey[k].attr.value := Str(Strip(vs[|vs| - 1]))])
    decreases |vs|
  {
    var a := cp.byKey[k].attr.value;
    StrLineSets(cp, attrs, k, vs[0]);
    var next := attrs[a := Str(Strip(vs[0]))];
    var lines := KeyLines(k, vs);
    KeyLinesTail(k, vs);
    ParseLinesStep(cp, attrs, lines, next);
    if |vs| == 1 {
      assert KeyLines(k, vs[1..]) == [];
    } else {
      StringLastWins(cp, next, k, vs[1..]);
      LastOfTail(vs);
      UpdateTwice(attrs, a, Str(Strip(vs[0])), Str(Strip(vs[|vs| - 1])));
    }
  }

  /** The last of the other values is the last value. */
  lemma LastOfTail(vs: seq<string>)
    requires |vs| > 1
    ensures vs[1..][|vs[1..]| - 1] == vs[|vs| - 1]
  {
  }

  // ---------------------------------------------------------------------
  // The Diamond parameter table

  /** os.path.join for two components. */
  function PathJoin(dir: string, name: string): (p: string)
    ensures |p| >= |name| && p[|p| - |name|..] == name
    ensures (|name| > 0 && name[0] == '/') || (|p| >= |dir| && p[..|dir|] == dir)
  {
    if |name| > 0 && name[0] == '/' then name
    else if dir == [] || dir[|dir| - 1] == '/' then dir + name
    else dir + "/" + name
  }

  /** The parameters DiamondConfig.__init__ registers, in order. */
  function DiamondParams(confdir: string, threads: int): seq<Param>
  {
    [ Param(Some("cachedir"), Some("CACHEDIR"), Str(PathJoin(confdir, "cache"))),
      Param(Some("certdata"), None, Str("")),
      Param(Some("certfile"), Some("CERTFILE"), Str(PathJoin(confdir, "CERTS"))),
      Param(Some("cgroupdir"), Some("CGROUPDIR"), NoneValue),
      Param(Some("daemonize"), None, Bool(true)),
      Param(Some("localhost_only"), None, Bool(false)),
      Param(Some("logdir"), Some("LOGDIR"), Str(PathJoin(confdir, "log"))),
      Param(Some("oneshot"), None, Bool(false)),
      Param(Some("serverids"), Some("SERVERID"), List([])),
      Param(Some("threads"), Some("THREADS"), Int(threads)),
      Param(Some("dataroot"), Some("DATAROOT"), NoneValue),
      Param(Some("indexdir"), Some("INDEXDIR"), NoneValue),
      Param(None, Some("DATATYPE"), NoneValue) ]
  }

  /** No attribute name and no key occurs twice in the table. */
  lemma DiamondParamsDistinct(confdir: string, threads: int)
    ensures DistinctParams(DiamondParams(confdir, threads))
  {
    var params := DiamondParams(confdir, threads);
    forall i, j | 0 <= i < j < |params|
      ensures params[i].attr.Some? ==> params[i].attr != params[j].attr
      ensures params[i].configKey.Some? ==> params[i].configKey != params[j].configKey
    {
      assert i < 13 && j < 13;
    }
  }

  /** The attribute names of a parameter table. */
  ghost function AttrNames(params: seq<Param>): set<string>
  {
    set i | 0 <= i < |params| && params[i].attr.Some? :: params[i].attr.value
  }

  /** The attribute index holds exactly the table's attribute names. */
  lemma RegistryAttrNames(params: seq<Param>)
    ensures Registry(params).byAttr.Keys == AttrNames(params)
  {
    forall s
      ensures s in Registry(params).byAttr <==> s in AttrNames(params)
    {
      IndexNames(params, AttrName, s);
      if s in AttrNames(params) {
        var i :| 0 <= i < |params| && params[i].attr == Some(s);
        assert NameOf(params[i], AttrName) == Some(s);
      }
    }
  }

  /** Every attribute of a table starts at the default of the last parameter registering it. */
  lemma DefaultsOfTable(params: seq<Param>)
    ensures forall i, a :: LastWith(params, AttrName, i, a) ==>
              a in Defaults(Registry(params)) && Defaults(Registry(params))[a] == params[i].default
  {
    forall i, a | LastWith(params, AttrName, i, a)
      ensures a in Defaults(Registry(params)) && Defaults(Registry(params))[a] == params[i].default
    {
      IndexLast(params, AttrName, i, a);
    }
  }

  /** Where the thread count, the server list and the cache directory sit in the Diamond table. */
  lemma DiamondTableEntries(confdir: string, threads: int)
    ensures var params := DiamondParams(confdir, threads);
            LastWith(params, AttrName, 9, "threads") && params[9].default == Int(threads) &&
            LastWith(params, AttrName, 8, "serverids") && params[8].default == List([]) &&
            LastWith(params, AttrName, 0, "cachedir") && params[0].default == Str(PathJoin(confdir, "cache"))
  {
  }

  /** A successful load sets exactly the registered attributes. */
  lemma OkResultKeys(cp: ConfigParams, lines: seq<string>, kw: Kwargs, attrs: Attrs)
    requires Consistent(cp)
    requires forall i :: 0 <= i < |lines| ==> lines[i] != []
    requires ParseLines(cp, Defaults(cp), lines).Ok? && FirstInvalid(cp, kw) == |kw|
    requires attrs == ParseLines(cp, Defaults(cp), lines).value + KwargsMap(kw)
    ensures attrs.Keys == cp.byAttr.Keys
  {
    KwargsMapKeys(kw);
    AllKeywordsValid(cp, kw);
  }

  /**
   * The steps of DiamondConfig.__init__ for any table without repeated
   * names: build the registry, then defaults, file lines and overrides.
   */
  method Configure(params: seq<Param>, lines: seq<string>, kw: Kwargs)
    returns (r: Result<Attrs, Failure>)
    requires DistinctParams(params)
    requires forall i :: 0 <= i < |lines| ==> lines[i] != []
    ensures r.Ok? ==> r.value.Keys == AttrNames(params)
    ensures lines == [] && kw == [] ==>
              r.Ok? && forall i, a :: LastWith(params, AttrName, i, a) ==> a in r.value && r.value[a] == params[i].default
  {
    var cp := NewConfigParams(params);
    DistinctRegistryConsistent(params);
    r := LoadConfig(cp, lines, kw);
    if r.Ok? {
      RegistryAttrNames(params);
      OkResultKeys(cp, lines, kw, r.value);
    }
    if lines == [] && kw == [] {
      assert r == Ok(Defaults(cp)) by {
        assert ParseLines(cp, Defaults(cp), lines) == Ok(Defaults(cp));
        assert Defaults(cp) + KwargsMap(kw) == Defaults(cp);
      }
      DefaultsOfTable(params);
    }
  }

  /**
   * DiamondConfig.__init__ after the path has been resolved, over the
   * Diamond parameter table.  `cpus` is the online processor count, None
   * where sysconf fails.
   */
  method DiamondConfigInit(confdir: string, cpus: Option<int>, lines: seq<string>, kw: Kwargs)
    returns (r: Result<Attrs, Failure>)
    requires forall i :: 0 <= i < |lines| ==> lines[i] != []
    ensures r.Ok? ==> r.value.Keys == AttrNames(DiamondParams(confdir, DefaultThreads(cpus)))
    ensures lines == [] && kw == [] ==>
              r.Ok? && "threads" in r.value && r.value["threads"] == Int(DefaultThreads(cpus)) &&
              "serverids" in r.value && r.value["serverids"] == List([]) &&
              "cachedir" in r.value && r.value["cachedir"] == Str(PathJoin(confdir, "cache"))
  {
    var threads := DefaultThreads(cpus);
    DiamondParamsDistinct(confdir, threads);
    DiamondTableEntries(confdir, threads);
    r := Configure(DiamondParams(confdir, threads), lines, kw);
  }
}
