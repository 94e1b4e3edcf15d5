/**
 * The contract every launcher extension implements, and the values that
 * cross it. An extension is a value: its descriptive fields, and for each
 * hook what calling that hook gives (`Ok(result)` or `Throws`). Every hook
 * has the same default as the Kotlin interface, so an extension is written
 * by naming only the hooks it overrides.
 */
module ExtensionContract {

  import opened Wrappers
  import opened HomeLayout

  /** The capabilities an extension may declare; declarative only. */
  datatype ExtensionPermission =
    | ReadClipboard
    | ReadNotifications
    | ReadCalendar
    | ReadContacts
    | AccessLocation
    | SendNotifications
    | NetworkAccess
    | AppUsageStats

  /** The intents an extension may ask the launcher to carry out. */
  datatype ExtensionAction =
    | LaunchApp(packageName: string)
    | OpenUrl(url: string)
    | ShowToast(message: string)
    | CreateReminder(text: string, timeMillis: int)
    | SendMessage(contact: string, message: string)
    | MakeCall(phoneNumber: string)
    | OpenSettings(settingsAction: Option<string> := None)
    | CustomIntent(action: string, data: map<string, string> := map[])

  /** An extension's answer to an AI query; higher priority is shown first. */
  datatype ExtensionResponse = ExtensionResponse(
    text: Option<string> := None,
    actions: seq<ExtensionAction> := [],
    priority: int := 0,
    metadata: map<string, string> := map[])

  datatype NotificationInfo = NotificationInfo(
    appPackage: string,
    title: Option<string>,
    text: Option<string>,
    timestamp: int)

  /** The read-only snapshot handed to every AI query; the clock reading is a parameter. */
  datatype LauncherContext = LauncherContext(
    currentTimeMillis: int,
    currentApp: Option<string> := None,
    recentNotifications: seq<NotificationInfo> := [],
    clipboard: Option<string> := None,
    installedApps: seq<string> := [],
    metadata: map<string, string> := map[])

  datatype WidgetSize = WidgetSize(width: int, height: int)

  /** A widget contribution; what it renders is not part of the model. */
  datatype ExtensionWidget = ExtensionWidget(
    id: string,
    name: string,
    description: string,
    defaultSize: WidgetSize,
    resizable: bool := true)

  /** A search-provider contribution; its search routine is not part of the model. */
  datatype SearchProvider = SearchProvider(id: string, name: string)

  datatype ThemeColors = ThemeColors(
    primary: int, accent: int, background: int, surface: int, text: int, textSecondary: int)

  datatype ExtensionTheme = ExtensionTheme(
    id: string, name: string, description: string, colors: ThemeColors)

  /** The launcher events that are fanned out to enabled extensions. */
  datatype LauncherEvent =
    | LauncherStart
    | AppLaunched(packageName: string)
    | AppDrawerOpened
    | HomeScreenLongPress(position: GridPosition)

  /** An extension: identity, declared permissions, and the outcome of each hook. */
  datatype LauncherExtension = LauncherExtension(
    id: string,
    name: string,
    version: string,
    author: string,
    description: string,
    permissions: seq<ExtensionPermission> := [],
    onInstall: Outcome<()> := Ok(()),
    onEnable: Outcome<()> := Ok(()),
    onDisable: Outcome<()> := Ok(()),
    onUninstall: Outcome<()> := Ok(()),
    onLauncherStart: Outcome<()> := Ok(()),
    onAppLaunched: string -> Outcome<()> := (packageName: string) => Ok(()),
    onAppDrawerOpened: Outcome<()> := Ok(()),
    onHomeScreenLongPress: GridPosition -> Outcome<()> := (position: GridPosition) => Ok(()),
    onAIQuery: (string, LauncherContext) -> Outcome<Option<ExtensionResponse>>
      := (query: string, context: LauncherContext) => Ok(None),
    provideWidget: Outcome<Option<ExtensionWidget>> := Ok(None),
    provideSearchProvider: Outcome<Option<SearchProvider>> := Ok(None),
    provideTheme: Outcome<Option<ExtensionTheme>> := Ok(None))
  {
    /** The hook that receives `event`. */
    function EventHook(event: LauncherEvent): Outcome<()> {
      match event
      case LauncherStart => onLauncherStart
      case AppLaunched(packageName) => onAppLaunched(packageName)
      case AppDrawerOpened => onAppDrawerOpened
      case HomeScreenLongPress(position) => onHomeScreenLongPress(position)
    }

    /** No hook throws, no event hook does anything, and nothing is ever contributed. */
    ghost predicate Inert() {
      && onInstall == Ok(()) && onEnable == Ok(()) && onDisable == Ok(()) && onUninstall == Ok(())
      && (forall event :: EventHook(event) == Ok(()))
      && (forall query, context :: onAIQuery(query, context) == Ok(None))
      && provideWidget == Ok(None) && provideSearchProvider == Ok(None) && provideTheme == Ok(None)
    }
  }

  /** An extension that overrides nothing keeps every default: it is inert and declares no permission. */
  lemma DefaultsAreInert(id: string, name: string, version: string, author: string, description: string)
    ensures LauncherExtension(id, name, version, author, description).Inert()
    ensures LauncherExtension(id, name, version, author, description).permissions == []
  {
  }
}
