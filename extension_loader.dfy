/**
 * The extension loader: a table of factories keyed by extension id, and the
 * resolution of an extension file to the factory registered for its name.
 * A factory is modelled by what calling it gives: an extension, or an
 * exception.
 */
module ExtensionLoading {

  import opened Wrappers
  import opened Text
  import opened ExtensionContract
  import opened SampleExtensions

  /**
   * A registered factory: one of the built-in constructors, or any other
   * factory, given by what calling it gives.
   */
  datatype Factory =
    | NewCalculator
    | NewWeather
    | NewNotes
    | Other(outcome: Outcome<LauncherExtension>)
  {
    /** Calling the factory. */
    function Call(): Outcome<LauncherExtension> {
      match this
      case NewCalculator => Ok(CalculatorExtension())
      case NewWeather => Ok(WeatherExtension())
      case NewNotes => Ok(NotesAt([]))
      case Other(outcome) => outcome
    }
  }

  /** The registered factories, by extension id. */
  type Registry = map<string, Factory>

  /** `File.nameWithoutExtension`: the file name up to its last '.'. */
  function NameWithoutExtension(fileName: string): string {
    SubstringBeforeLast(fileName, '.')
  }

  /** `File.extension`: what follows the last '.' of the file name, or "" without one. */
  function FileExtension(fileName: string): string {
    SubstringAfterLast(fileName, '.')
  }

  /** The name an installed extension's file gets: its id followed by ".kts". */
  function InstalledFileName(id: string): string {
    id + ".kts"
  }

  /** The installed file name of `id` gives back `id`, with extension "kts". */
  lemma InstalledFileNameRoundTrip(id: string)
    ensures NameWithoutExtension(InstalledFileName(id)) == id
    ensures FileExtension(InstalledFileName(id)) == "kts"
  {
    var f := InstalledFileName(id);
    assert LastIndexOf(id + ".", '.') == Some(|id|);
    assert (id + ".k")[..|id| + 1] == id + ".";
    assert LastIndexOf(id + ".k", '.') == Some(|id|);
    assert (id + ".kt")[..|id| + 2] == id + ".k";
    assert LastIndexOf(id + ".kt", '.') == Some(|id|);
    assert f[..|id| + 3] == id + ".kt";
    assert LastIndexOf(f, '.') == Some(|id|);
    assert f[..|id|] == id;
    assert f[|id| + 1..] == "kts";
  }

  /**
   * `loadFromFile`: the extension the factory registered under the file's name
   * without its extension creates; nothing when no factory is registered
   * under that name or the factory throws.
   */
  function LoadFrom(registry: Registry, fileName: string): (r: Option<LauncherExtension>)
    ensures var id := NameWithoutExtension(fileName);
      r.Some? <==> id in registry && registry[id].Call().Ok?
    ensures r.Some? ==> r.value == registry[NameWithoutExtension(fileName)].Call().value
  {
    var id := NameWithoutExtension(fileName);
    if id in registry then
      match registry[id].Call()
      case Ok(extension) => Some(extension)
      case Throws => None
    else None
  }

  /** The installed file of a registered id loads what that id's factory creates. */
  lemma InstalledFileLoads(registry: Registry, id: string)
    requires id in registry && registry[id].Call().Ok?
    ensures LoadFrom(registry, InstalledFileName(id)) == Some(registry[id].Call().value)
  {
    InstalledFileNameRoundTrip(id);
  }

  /** The factories the loader registers for the three built-in extensions. */
  function SampleRegistry(): Registry {
    map[]["com.launcher.calculator" := NewCalculator]
         ["com.launcher.weather" := NewWeather]
         ["com.launcher.notes" := NewNotes]
  }

  /** Exactly the three built-in ids are registered, each to its own constructor. */
  lemma SampleRegistryKeys()
    ensures SampleRegistry().Keys == {"com.launcher.calculator", "com.launcher.weather", "com.launcher.notes"}
    ensures SampleRegistry()["com.launcher.calculator"] == NewCalculator
    ensures SampleRegistry()["com.launcher.weather"] == NewWeather
    ensures SampleRegistry()["com.launcher.notes"] == NewNotes
  {
  }

  /** The calculator factory never throws and creates an extension whose id is its registry key. */
  lemma CalculatorFactoryId()
    ensures NewCalculator.Call() == Ok(CalculatorExtension())
    ensures CalculatorExtension().id == "com.launcher.calculator"
  {
  }

  /** The weather factory never throws and creates an extension whose id is its registry key. */
  lemma WeatherFactoryId()
    ensures NewWeather.Call() == Ok(WeatherExtension())
    ensures WeatherExtension().id == "com.launcher.weather"
  {
  }

  /** The notes factory never throws and creates a notes extension that holds no notes. */
  lemma NotesFactoryCreatesEmpty()
    ensures NewNotes.Call() == Ok(NotesAt([]))
  {
  }

  /** Whatever notes it holds, the notes extension's id is its registry key. */
  lemma NotesId(notes: seq<string>)
    ensures NotesAt(notes).id == "com.launcher.notes"
  {
  }

  /** The loader; it owns the factory table. */
  class ExtensionLoader {
    var registry: Registry

    /** A fresh loader holds the factories of the built-in extensions. */
    constructor ()
      ensures registry == SampleRegistry()
    {
      registry := map[];
      new;
      RegisterExtension("com.launcher.calculator", NewCalculator);
      RegisterExtension("com.launcher.weather", NewWeather);
      RegisterExtension("com.launcher.notes", NewNotes);
    }

    /** `registerExtension`: the last factory registered under an id wins; other ids keep theirs. */
    method RegisterExtension(id: string, factory: Factory)
      modifies this
      ensures registry == old(registry)[id := factory]
      ensures registry.Keys == old(registry).Keys + {id}
      ensures forall other :: other in old(registry) && other != id ==> registry[other] == old(registry)[other]
    {
      registry := registry[id := factory];
    }

    /** `loadFromFile` against the current table. */
    function LoadFromFile(fileName: string): Option<LauncherExtension>
      reads this
    {
      LoadFrom(registry, fileName)
    }
  }
}
