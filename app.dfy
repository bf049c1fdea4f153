/** The application shell: the active section and the page it shows, the
    dark-mode flag kept in storage under "theme", and the mobile sidebar. */
module App {
  import opened Wrappers
  import opened ClassList

  /** The first value of the dark-mode flag. Without a window it is false.
      Otherwise a stored "dark" turns it on, any other stored text turns it
      off, and a missing or empty entry defers to the system preference. */
  function InitialIsDark(hasWindow: bool, stored: Option<string>, prefersDark: bool): (r: bool)
    ensures !hasWindow ==> !r
    ensures hasWindow && stored == Some("dark") ==> r
    ensures stored.Some? && stored.value != "" && stored.value != "dark" ==> !r
    ensures hasWindow && (stored.None? || stored == Some("")) ==> (r <==> prefersDark)
  {
    hasWindow && (stored == Some("dark") || ((stored.None? || stored == Some("")) && prefersDark))
  }

  /** What the persist effect writes to storage. */
  function StoredValue(isDark: bool): (r: string)
    ensures r != ""
    ensures r == "dark" <==> isDark
  {
    if isDark then "dark" else "light"
  }

  /** Reading back what was written gives the same flag, whatever the
      system prefers. */
  lemma PersistRoundTrip(isDark: bool, prefersDark: bool)
    ensures InitialIsDark(true, Some(StoredValue(isDark)), prefersDark) == isDark
  {
  }

  /** The eight pages `renderContent` can show. */
  datatype Page = DashboardPage | NotesPage | TasksPage | EventsPage | SearchPage
                | AnalyticsPage | SettingsPage | HelpPage

  /** The section id that selects each page. */
  function SectionId(p: Page): string
  {
    match p
    case DashboardPage => "dashboard"
    case NotesPage => "notes"
    case TasksPage => "tasks"
    case EventsPage => "events"
    case SearchPage => "search"
    case AnalyticsPage => "analytics"
    case SettingsPage => "settings"
    case HelpPage => "help"
  }

  const KnownSections: seq<string> :=
    ["dashboard", "notes", "tasks", "events", "search", "analytics", "settings", "help"]

  /** The ids of the main navigation and of the secondary navigation. */
  const NavigationIds: seq<string> := ["dashboard", "notes", "tasks", "events", "search"]
  const SecondaryIds: seq<string> := ["analytics", "settings", "help"]

  /** `renderContent`: a known id shows its own page, anything else the
      dashboard. */
  function RenderContent(section: string): (r: Page)
    ensures section in KnownSections ==> SectionId(r) == section
    ensures section !in KnownSections ==> r == DashboardPage
  {
    if section == "notes" then NotesPage
    else if section == "tasks" then TasksPage
    else if section == "events" then EventsPage
    else if section == "search" then SearchPage
    else if section == "analytics" then AnalyticsPage
    else if section == "settings" then SettingsPage
    else if section == "help" then HelpPage
    else DashboardPage
  }

  /** Every page is reached through its own id, and the two menus offer
      exactly the known ids. */
  lemma RenderEveryPage(p: Page)
    ensures SectionId(p) in KnownSections
    ensures RenderContent(SectionId(p)) == p
    ensures NavigationIds + SecondaryIds == KnownSections
  {
  }

  class AppShell {
    var activeSection: string
    var isDark: bool
    /** The "theme" entry of local storage. */
    var stored: Option<string>
    /** The classes of the document's root element. */
    var root: seq<string>
    var openMobile: bool
    const isMobile: bool

    /** The persist effect has run for the current flag. */
    ghost predicate Valid()
      reads this
    {
      stored == Some(StoredValue(isDark)) && ("dark" in root <==> isDark)
    }

    /** The page on screen. */
    function Shown(): Page
      reads this
    {
      RenderContent(activeSection)
    }

    /** Mounting in a browser: the dashboard, the initial flag, then the
        persist effect. */
    constructor (storage: Option<string>, prefersDark: bool, classes: seq<string>, mobile: bool, open: bool)
      ensures activeSection == "dashboard" && isMobile == mobile && openMobile == open
      ensures isDark == InitialIsDark(true, storage, prefersDark)
      ensures stored == Some(StoredValue(isDark))
      ensures root == if isDark then Add(classes, "dark") else RemoveDark(classes)
      ensures Valid()
    {
      activeSection := "dashboard";
      isDark := InitialIsDark(true, storage, prefersDark);
      isMobile := mobile;
      openMobile := open;
      stored := storage;
      root := classes;
      new;
      Persist();
    }

    /** The persist effect: add or remove the "dark" class and store the
        flag's name. */
    method Persist()
      modifies this
      ensures isDark == old(isDark) && activeSection == old(activeSection) && openMobile == old(openMobile)
      ensures stored == Some(StoredValue(isDark))
      ensures root == if isDark then Add(old(root), "dark") else RemoveDark(old(root))
      ensures forall c :: c != "dark" ==> (c in root <==> c in old(root))
      ensures Valid()
    {
      if isDark {
        root := Add(root, "dark");
        stored := Some("dark");
      } else {
        root := RemoveDark(root);
        stored := Some("light");
      }
    }

    /** `toggleTheme`, followed by the persist effect. */
    method ToggleTheme()
      modifies this
      ensures isDark == !old(isDark)
      ensures activeSection == old(activeSection) && openMobile == old(openMobile)
      ensures stored == Some(StoredValue(isDark))
      ensures root == if isDark then Add(old(root), "dark") else RemoveDark(old(root))
      ensures Valid()
    {
      isDark := !isDark;
      Persist();
    }

    /** Toggling twice restores the flag, the stored entry and whether the
        root is dark. */
    method ToggleThemeTwice()
      requires Valid()
      modifies this
      ensures isDark == old(isDark) && stored == old(stored)
      ensures ("dark" in root) == ("dark" in old(root))
      ensures forall c :: c != "dark" ==> (c in root <==> c in old(root))
      ensures activeSection == old(activeSection) && Valid()
    {
      ToggleTheme();
      ToggleTheme();
    }

    /** Mounting again over the same storage and root: the flag read back is
        the flag that was stored, whatever the system now prefers. */
    method Remount(prefersDark: bool)
      requires Valid()
      modifies this
      ensures activeSection == "dashboard"
      ensures isDark == old(isDark) && stored == old(stored) && root == old(root)
      ensures Valid()
    {
      PersistRoundTrip(isDark, prefersDark);
      activeSection := "dashboard";
      isDark := InitialIsDark(true, stored, prefersDark);
    }

    /** `handleSectionChange`: select the section, and on a phone close the
        sidebar. */
    method HandleSectionChange(sectionId: string)
      modifies this
      ensures activeSection == sectionId
      ensures openMobile == (if isMobile then false else old(openMobile))
      ensures isDark == old(isDark) && stored == old(stored) && root == old(root)
      ensures Shown() == RenderContent(sectionId)
    {
      activeSection := sectionId;
      if isMobile {
        openMobile := false;
      }
    }
  }
}
