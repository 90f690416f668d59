/** Building the dependency graph from the placeholders that stand for secret
    values (worker/secret_deps.go:24-65). */
module SecretGraph {
  import opened Text
  import opened SecretDeps

  datatype SecretVar = SecretVar(typ: string, path: string, key: string)

  type Vars = map<string, SecretVar>
  type Configs = map<string, set<string>>   // configuration values of each secret type

  function Placeholder(sv: SecretVar): string {
    "__pikoci_secret:" + sv.typ + ":" + sv.path + ":" + sv.key + "__"
  }

  predicate InOwnText(sv: SecretVar, ph: string) {
    Contains(sv.path, ph) || Contains(sv.key, ph)
  }

  predicate InConfig(configs: Configs, sv: SecretVar, ph: string) {
    sv.typ in configs && exists c | c in configs[sv.typ] :: Contains(c, ph)
  }

  /** The reverse index gives each placeholder to one variable that has it. */
  ghost predicate Indexes(owner: map<string, string>, vars: Vars) {
    && (forall ph :: ph in owner ==> owner[ph] in vars && StandsFor(ph, vars[owner[ph]]))
    && (forall v, ph :: v in vars && StandsFor(ph, vars[v]) ==> ph in owner)
  }

  /** The text that stands for a secret: its type, path and key in the marker. */
  ghost predicate StandsFor(ph: string, sv: SecretVar) {
    ph == "__pikoci_secret:" + sv.typ + ":" + sv.path + ":" + sv.key + "__"
  }

  /** An edge v -> d for each placeholder of d that v's texts mention. */
  ghost predicate Mentions(vars: Vars, configs: Configs, owner: map<string, string>, v: string, d: string)
    requires v in vars
  {
    exists ph :: ph in owner && owner[ph] == d && InTexts(configs, vars[v], ph)
  }

  /** The variable's path, its key or a configuration value of its secret type holds
      the text. */
  ghost predicate InTexts(configs: Configs, sv: SecretVar, ph: string) {
    || Contains(sv.path, ph) || Contains(sv.key, ph)
    || (sv.typ in configs && exists c :: c in configs[sv.typ] && Contains(c, ph))
  }

  ghost predicate GraphOf(g: Graph, vars: Vars, configs: Configs, owner: map<string, string>) {
    && Indexes(owner, vars) && g.Keys == vars.Keys
    && forall v, d :: v in vars ==> (d in g[v] <==> Mentions(vars, configs, owner, v, d))
  }

  /** Adds the owners of the placeholders that occur in `s`. */
  method ScanForDeps(deps: set<string>, s: string, owner: map<string, string>) returns (r: set<string>)
    ensures forall d :: d in r <==> d in deps || exists ph :: ph in owner && owner[ph] == d && Contains(s, ph)
  {
    r := deps;
    var todo := owner.Keys;
    while todo != {}
      invariant todo <= owner.Keys
      invariant forall d :: d in r <==>
        d in deps || exists ph :: ph in owner && ph !in todo && owner[ph] == d && Contains(s, ph)
    {
      var ph :| ph in todo;
      var was := r;
      if Contains(s, ph) { r := r + {owner[ph]}; }
      forall d ensures d in r <==>
        d in deps || exists q :: q in owner && q !in todo - {ph} && owner[q] == d && Contains(s, q)
      {
        if d in r && d !in was { assert ph in owner && ph !in todo - {ph} && owner[ph] == d; }
      }
      todo := todo - {ph};
    }
  }

  method ScanConfigs(deps: set<string>, configs: set<string>, owner: map<string, string>) returns (r: set<string>)
    ensures forall d :: d in r <==>
      d in deps || exists c, ph :: c in configs && ph in owner && owner[ph] == d && Contains(c, ph)
  {
    r := deps;
    var todo := configs;
    while todo != {}
      invariant todo <= configs
      invariant forall d :: d in r <==>
        d in deps || exists c, ph :: c in configs - todo && ph in owner && owner[ph] == d && Contains(c, ph)
    {
      var c :| c in todo;
      todo := todo - {c};
      r := ScanForDeps(r, c, owner);
      assert configs - todo == configs - (todo + {c}) + {c};
    }
  }

  method IndexPlaceholders(vars: Vars) returns (owner: map<string, string>)
    ensures Indexes(owner, vars)
  {
    owner := map[];
    var todo := vars.Keys;
    while todo != {}
      invariant todo <= vars.Keys
      invariant forall ph :: ph in owner ==> owner[ph] in vars && Placeholder(vars[owner[ph]]) == ph
      invariant forall v :: v in vars && v !in todo ==> Placeholder(vars[v]) in owner
    {
      var v :| v in todo;
      owner := owner[Placeholder(vars[v]) := v];
      todo := todo - {v};
    }
  }

  method DepsOf(vars: Vars, configs: Configs, owner: map<string, string>, v: string) returns (deps: set<string>)
    requires v in vars
    ensures forall d :: d in deps <==> Mentions(vars, configs, owner, v, d)
  {
    var sv := vars[v];
    deps := ScanForDeps({}, sv.path, owner);
    deps := ScanForDeps(deps, sv.key, owner);
    if sv.typ in configs { deps := ScanConfigs(deps, configs[sv.typ], owner); }
  }

  method BuildSecretDependencyGraph(vars: Vars, configs: Configs) returns (g: Graph, ghost owner: map<string, string>)
    ensures Closed(g) && GraphOf(g, vars, configs, owner)
  {
    var index := IndexPlaceholders(vars);
    owner := index;
    g := map[];
    var todo := vars.Keys;
    while todo != {}
      invariant todo <= vars.Keys && g.Keys == vars.Keys - todo
      invariant forall v, d :: v in g ==> (d in g[v] <==> Mentions(vars, configs, index, v, d))
    {
      var v :| v in todo;
      var deps := DepsOf(vars, configs, index, v);
      g := g[v := deps];
      todo := todo - {v};
    }
  }

  // ----- which edges can be part of a cycle

  /** A placeholder inside a variable's own path or key is shorter than the
      variable's placeholder, which holds that path and key. */
  lemma OwnTextIsShorter(sv: SecretVar, ph: string)
    requires InOwnText(sv, ph)
    ensures |ph| < |Placeholder(sv)|
  {
  }

  lemma OwnOrConfig(configs: Configs, sv: SecretVar, ph: string)
    ensures InTexts(configs, sv, ph) <==> InOwnText(sv, ph) || InConfig(configs, sv, ph)
  {
  }

  lemma StandsAsPlaceholder(ph: string, sv: SecretVar)
    ensures StandsFor(ph, sv) <==> ph == Placeholder(sv)
  {
  }

  lemma {:induction false} OwnEdgesShrink(g: Graph, vars: Vars, configs: Configs, owner: map<string, string>,
                                          w: seq<string>)
    requires GraphOf(g, vars, configs, owner) && Walk(g, w) && |w| >= 2
    requires forall i :: 0 <= i < |w| - 1 ==> !InConfig(configs, vars[w[i]], Placeholder(vars[w[i + 1]]))
    ensures |Placeholder(vars[w[|w| - 1]])| < |Placeholder(vars[w[0]])|
    decreases |w|
  {
    hide Placeholder, InConfig, InOwnText, InTexts, StandsFor;
    assert w[0 + 1] in g[w[0]] && Mentions(vars, configs, owner, w[0], w[1]);
    var ph :| ph in owner && owner[ph] == w[1] && InTexts(configs, vars[w[0]], ph);
    OwnOrConfig(configs, vars[w[0]], ph);
    StandsAsPlaceholder(ph, vars[w[1]]);
    assert !InConfig(configs, vars[w[0]], Placeholder(vars[w[0 + 1]]));
    OwnTextIsShorter(vars[w[0]], ph);
    if |w| > 2 {
      var t := w[1..];
      forall i | 0 <= i < |t| - 1
        ensures t[i + 1] in g[t[i]] && !InConfig(configs, vars[t[i]], Placeholder(vars[t[i + 1]]))
      {
        assert w[i + 1 + 1] in g[w[i + 1]] && !InConfig(configs, vars[w[i + 1]], Placeholder(vars[w[i + 1 + 1]]));
      }
      OwnEdgesShrink(g, vars, configs, owner, t);
    }
  }

  /** Paths and keys alone never make a cycle: every cycle passes through an edge
      that a secret type's configuration puts there. */
  lemma EveryCycleUsesConfig(g: Graph, vars: Vars, configs: Configs, owner: map<string, string>, w: seq<string>)
    requires GraphOf(g, vars, configs, owner) && ClosedWalk(g, w)
    ensures exists i :: 0 <= i < |w| - 1 && InConfig(configs, vars[w[i]], Placeholder(vars[w[i + 1]]))
  {
    if forall i :: 0 <= i < |w| - 1 ==> !InConfig(configs, vars[w[i]], Placeholder(vars[w[i + 1]])) {
      OwnEdgesShrink(g, vars, configs, owner, w);
    }
  }

  /** Resolving the secrets of a pipeline without secret type configuration can
      only fail for depth. */
  method SortSecrets(vars: Vars, configs: Configs) returns (r: SortResult)
    ensures configs == map[] ==> !r.Circular?
    ensures r.Layers? ==> forall v :: v in vars <==> exists i :: 0 <= i < |r.layers| && v in r.layers[i]
  {
    var g, owner := BuildSecretDependencyGraph(vars, configs);
    r := TopologicalSort(g);
    if r.Circular? { EveryCycleUsesConfig(g, vars, configs, owner, r.cycle); }
  }
}
