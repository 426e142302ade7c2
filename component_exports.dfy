/**
 * The three symbols every component exports under the same, case-sensitive
 * names; a host resolves each of them by name.
 */
module ComponentExports {

  const UnloadName: string := "dbj_component_can_unload_now"
  const FactoryName: string := "dbj_component_get_implementation"
  const SemverName: string := "dbj_component_get_version"

  /** The exported entry points: unload-readiness query, factory, version query. */
  datatype Export = CanUnloadNow | GetImplementation | GetVersion

  /** The name under which each entry point is exported. */
  function ExportName(e: Export): (name: string)
    ensures ExportOf(name) == Some(e)
  {
    match e
    case CanUnloadNow => UnloadName
    case GetImplementation => FactoryName
    case GetVersion => SemverName
  }

  /** Resolution of a symbol name against the component contract; `None` for any other name. */
  function ExportOf(name: string): (r: Option<Export>)
    ensures r.None? <==> name != UnloadName && name != FactoryName && name != SemverName
  {
    if name == UnloadName then Some(CanUnloadNow)
    else if name == FactoryName then Some(GetImplementation)
    else if name == SemverName then Some(GetVersion)
    else None
  }

  datatype Option<T> = None | Some(value: T)

  /** The three names are pairwise distinct, so each resolves to its own entry point. */
  lemma ExportNamesDistinct()
    ensures UnloadName != FactoryName && UnloadName != SemverName && FactoryName != SemverName
  {
    assert UnloadName[14] == 'c' && FactoryName[14] == 'g' && SemverName[14] == 'g';
    assert FactoryName[18] == 'i' && SemverName[18] == 'v';
  }

  /** A name that resolves is exactly the name of the entry point it resolves to. */
  lemma ExportOfSound(name: string)
    requires ExportOf(name).Some?
    ensures ExportName(ExportOf(name).value) == name
  {
  }
}
