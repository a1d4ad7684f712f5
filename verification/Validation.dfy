/** Validate on the live config (internal/config/config.go:194-297). */
module Validation {
  import opened Envelope
  import opened ConfigModel
  import opened Live

  method VarIsValid(v: VarCell) returns (ok: bool)
    ensures ok == ValidVar(v.Content())
  {
    if !IsBlank(v.value) {
      if !IsBlank(v.source) || !IsBlank(v.ref) || !IsBlank(v.key) || |v.extra.m| > 0 {
        return false;
      }
      return !IsBlank(v.name);
    }
    if IsBlank(v.source) {
      return false;
    }
    return !IsBlank(v.name) || IsBlank(v.key);
  }

  method MappingIsValid(m: MappingRec) returns (ok: bool)
    ensures ok == ValidMapping(MappingContent(m))
  {
    hide ValidVar;
    var kinds := 0;
    if m.path != "" {
      kinds := kinds + 1;
    }
    if m.glob != "" {
      kinds := kinds + 1;
    }
    if m.cwdGlob != "" {
      kinds := kinds + 1;
    }
    if kinds != 1 || (m.cwdGlob == "" && |m.commands| > 0) {
      return false;
    }
    if m.cwdGlob != "" {
      if |m.commands| == 0 {
        return false;
      }
      for j := 0 to |m.commands|
        invariant forall k | 0 <= k < j :: IsValidCommandName(m.commands[k])
      {
        if !IsValidCommandName(m.commands[j]) {
          return false;
        }
      }
    }
    if |m.vars| == 0 {
      return false;
    }
    ghost var vars := MappingContent(m).vars;
    assert forall o | o in CellObjs(m.vars) :: allocated(o);
    for j := 0 to |m.vars|
      invariant MappingContent(m) == old(MappingContent(m))
      invariant forall k | 0 <= k < j :: ValidVar(vars[k])
    {
      assert vars[j] == m.vars[j].Content();
      var valid := VarIsValid(m.vars[j]);
      if !valid {
        assert vars[j] in vars;
        return false;
      }
    }
    return true;
  }

  method StructureIsValid(c: LiveConfig) returns (ok: bool)
    ensures ok == ValidateStructure(c.Content())
  {
    hide ValidMapping, MappingContent;
    if c.version != VERSION {
      return false;
    }
    var todo := c.sources.Keys;
    while todo != {}
      invariant todo <= c.sources.Keys
      invariant forall n | n in c.sources && n !in todo :: c.sources[n].typ != "" && c.sources[n].typ != "github"
      decreases todo
    {
      var n :| n in todo;
      todo := todo - {n};
      if c.sources[n].typ == "" || c.sources[n].typ == "github" {
        assert n in c.Content().sources;
        return false;
      }
    }
    ghost var ms := c.Content().mappings;
    PartsExist(c);
    for i := 0 to |c.mappings|
      invariant c.Content() == old(c.Content())
      invariant forall k | 0 <= k < i :: ValidMapping(ms[k])
    {
      assert ms[i] == MappingContent(c.mappings[i]) && ms[i] in ms;
      label Before:
      var valid := MappingIsValid(c.mappings[i]);
      assert c.Content() == old@Before(c.Content());
      if !valid {
        return false;
      }
    }
    return true;
  }

  method SourcesAreDefined(sources: map<string, SourceRec>, m: MappingRec, ghost c: Config) returns (ok: bool)
    requires sources.Keys == c.sources.Keys
    ensures ok <==> forall v | v in MappingContent(m).vars :: SourceDefined(c, v)
  {
    ghost var vars := MappingContent(m).vars;
    for j := 0 to |m.vars|
      invariant forall k | 0 <= k < j :: SourceDefined(c, vars[k])
    {
      var v := m.vars[j];
      assert vars[j] == v.Content() && vars[j] in vars;
      if IsBlank(v.value) && (!v.source.Text? || v.source.s !in sources) {
        assert !SourceDefined(c, vars[j]);
        return false;
      }
    }
    return true;
  }

  method PostIsValid(c: LiveConfig) returns (ok: bool)
    ensures ok == ValidatePost(c.Content())
  {
    hide SourceDefined, MappingContent;
    ghost var content := c.Content();
    PartsExist(c);
    for i := 0 to |c.mappings|
      invariant c.Content() == content
      invariant forall k | 0 <= k < i :: forall v | v in content.mappings[k].vars :: SourceDefined(content, v)
    {
      assert content.mappings[i] == MappingContent(c.mappings[i]) && content.mappings[i] in content.mappings;
      label Before:
      var defined := SourcesAreDefined(c.sources, c.mappings[i], content);
      assert c.Content() == old@Before(c.Content());
      if !defined {
        return false;
      }
    }
    return true;
  }

  method IsValid(c: LiveConfig) returns (ok: bool)
    ensures ok == Validate(c.Content())
  {
    PartsExist(c);
    var structure := StructureIsValid(c);
    assert c.Content() == old(c.Content());
    if !structure {
      return false;
    }
    ok := PostIsValid(c);
  }
}
