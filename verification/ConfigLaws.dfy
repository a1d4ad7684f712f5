/** What validation lets through, field by field (internal/config/config.go:194-297, internal/config/nameid.go). */
module ConfigLaws {
  import opened Wrappers
  import opened Envelope
  import opened ConfigModel

  /** A var is a literal with a name and nothing else, or names a source; a key asks for a name. */
  lemma ValidVarExactly(v: Var)
    ensures ValidVar(v) <==>
            if v.value != Text("")
            then
              && v.source == Text("") && v.ref == Text("") && v.key == Text("") && v.extra == map[]
              && v.name != Text("")
            else v.source != Text("") && (v.name == Text("") ==> v.key == Text(""))
  {
  }

  /** A command name has letters, digits, dots, underscores, plus and minus signs only, so it is one path segment. */
  lemma CommandNamesExactly(s: string)
    ensures IsValidCommandName(s) <==>
            s != "" && forall i | 0 <= i < |s| ::
              'a' <= s[i] <= 'z' || 'A' <= s[i] <= 'Z' || '0' <= s[i] <= '9' || s[i] in ['.', '_', '+', '-']
    ensures IsValidCommandName(s) ==> '/' !in s && ' ' !in s
  {
    forall c: char ensures c in "._-+" <==> c == '.' || c == '_' || c == '-' || c == '+' {
      assert "._-+"[0] == '.' && "._-+"[1] == '_' && "._-+"[2] == '-' && "._-+"[3] == '+';
    }
    if forall i | 0 <= i < |s| :: IsCommandChar(s[i]) {
      assert forall c | c in s :: IsCommandChar(c);
    }
    assert forall i | 0 <= i < |s| :: s[i] in s;
  }

  /** A mapping is of one kind; commands go with a working directory, always; and it has at least one var. */
  lemma ValidMappingExactly(m: Mapping)
    ensures ValidMapping(m) <==>
            && ((m.path != "" && m.glob == "" && m.cwdGlob == "" && m.commands == [])
                || (m.path == "" && m.glob != "" && m.cwdGlob == "" && m.commands == [])
                || (m.path == "" && m.glob == "" && m.cwdGlob != "" && m.commands != []
                    && forall c | c in m.commands :: IsValidCommandName(c)))
            && |m.vars| > 0 && forall v | v in m.vars :: ValidVar(v)
  {
    hide ValidVar, IsValidCommandName;
  }

  /** A config is of version 1, its sources have a type that is still known, its mappings are valid and every var that
      is no literal names one of its sources. */
  lemma ValidExactly(c: Config)
    ensures Validate(c) <==>
            && c.version == 1
            && (forall n | n in c.sources :: c.sources[n].typ != "" && c.sources[n].typ != "github")
            && (forall m | m in c.mappings :: ValidMapping(m))
            && forall m | m in c.mappings :: forall v | v in m.vars ::
              v.value == Text("") ==> v.source.Text? && v.source.s in c.sources
  {
    hide ValidMapping;
  }
}
