/** The built-in targets and the names of targets, stated without the tables of the model. */
module TargetLaws {
  import opened Common
  import opened TargetMaps

  /** A name that shows something, and no control character. */
  lemma NamesByCharacters(name: string)
    ensures ValidName(name) <==>
              && (exists i :: 0 <= i < |name| && !IsWhitespace(name[i]))
              && !exists i :: 0 <= i < |name| && IsControl(name[i])
  {
  }

  /** Each built-in target brings itself; some bring node, and bundler brings browser. */
  lemma BuiltinsByName()
    ensures BuiltinConditions("node") == {"node"} && BuiltinConditions("browser") == {"browser"}
    ensures BuiltinConditions("types") == {"types"} && BuiltinConditions("bundler") == {"bundler", "browser"}
    ensures BuiltinConditions("production") == {"production", "node"}
    ensures BuiltinConditions("development") == {"development", "node"}
    ensures BuiltinConditions("test") == {"test", "node"} && BuiltinConditions("cli") == {"cli", "node"}
    ensures BuiltinConditions("worker") == {"worker", "node"}
  {
  }

  /** No other name is built in. */
  lemma OtherNamesBringNothing(profile: string)
    requires profile != "node" && profile != "browser" && profile != "types" && profile != "bundler"
    requires profile != "production" && profile != "development" && profile != "test" && profile != "cli"
    requires profile != "worker"
    ensures BuiltinConditions(profile) == {} && profile !in BUILTINS
  {
  }

  /** A target contributes the conditions it lists and those it brings as a built-in one. */
  lemma OwnByFields(t: TargetMap, profile: string, c: string)
    ensures c in OwnConditions(t, profile) <==>
              c in BuiltinConditions(profile) || (profile in t && c in t[profile].conditions)
  {
  }
}
