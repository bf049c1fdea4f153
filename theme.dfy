/** The class list of the document's root element, as `classList.add` and
    `classList.remove` change it: an ordered list of class names, kept free
    of duplicates. */
module ClassList {
  import opened Arrays

  /** `add(c)`: a class already present is left where it is, a new one is
      appended. */
  function Add(root: seq<string>, c: string): (r: seq<string>)
    ensures forall x :: x in r <==> x in root || x == c
  {
    if c in root then root else root + [c]
  }

  predicate NotThemeClass(c: string)
  {
    c != "light" && c != "dark"
  }

  predicate NotDark(c: string)
  {
    c != "dark"
  }

  /** `remove("light", "dark")`. */
  function RemoveThemeClasses(root: seq<string>): (r: seq<string>)
    ensures forall x :: x in r <==> x in root && NotThemeClass(x)
  {
    FilterMembers(NotThemeClass, root);
    Filter(NotThemeClass, root)
  }

  /** `remove("dark")`. */
  function RemoveDark(root: seq<string>): (r: seq<string>)
    ensures forall x :: x in r <==> x in root && x != "dark"
  {
    FilterMembers(NotDark, root);
    Filter(NotDark, root)
  }

  /** The root shows exactly the one theme class `c`. */
  predicate ShowsOnly(root: seq<string>, c: string)
  {
    ("light" in root <==> c == "light") && ("dark" in root <==> c == "dark")
  }
}

/** The `useTheme` hook: a stored theme of "light", "dark" or "system", and
    the root class that shows it. */
module Theme {
  import opened Wrappers
  import opened Arrays
  import opened ClassList

  datatype Theme = Light | Dark | System

  function Name(t: Theme): string
  {
    match t
    case Light => "light"
    case Dark => "dark"
    case System => "system"
  }

  /** The theme used when storage holds none. */
  const DefaultTheme: Theme := System

  /** The class the first effect adds: "system" follows the preference of
      the operating system, the other two themes name themselves. */
  function Resolved(t: Theme, prefersDark: bool): (r: string)
    ensures r == "light" || r == "dark"
    ensures t != System ==> r == Name(t)
    ensures t == System ==> (r == "dark" <==> prefersDark)
  {
    if t == Dark || (t == System && prefersDark) then "dark" else "light"
  }

  /** The first effect: remove both theme classes, then add the resolved
      one. Afterwards the root shows exactly the resolved theme, and every
      other class is kept. */
  function Apply(root: seq<string>, t: Theme, prefersDark: bool): (r: seq<string>)
    ensures ShowsOnly(r, Resolved(t, prefersDark))
    ensures forall x :: NotThemeClass(x) ==> (x in r <==> x in root)
  {
    Add(RemoveThemeClasses(root), Resolved(t, prefersDark))
  }

  /** Running the effect again changes nothing. */
  lemma ApplyIdempotent(root: seq<string>, t: Theme, prefersDark: bool)
    ensures Apply(Apply(root, t, prefersDark), t, prefersDark) == Apply(root, t, prefersDark)
  {
    var c := Resolved(t, prefersDark);
    var once := Apply(root, t, prefersDark);
    var stripped := RemoveThemeClasses(root);
    assert once == stripped + [c];
    assert RemoveThemeClasses(once) == stripped by {
      FilterConcat(NotThemeClass, stripped, [c]);
      FilterAll(NotThemeClass, stripped);
      assert Filter(NotThemeClass, [c]) == [];
    }
  }

  /** `toggleTheme`: light and dark swap; "system" becomes the theme
      opposite to what the system currently prefers. */
  function Toggle(t: Theme, prefersDark: bool): (r: Theme)
    ensures r != System
    ensures t == Light ==> r == Dark
    ensures t == Dark ==> r == Light
    ensures t == System ==> (r == Dark <==> !prefersDark)
  {
    match t
    case Light => Dark
    case Dark => Light
    case System => if prefersDark then Light else Dark
  }

  /** Every toggle changes what the root shows. */
  lemma ToggleFlipsAppearance(t: Theme, prefersDark: bool)
    ensures Resolved(Toggle(t, prefersDark), prefersDark) != Resolved(t, prefersDark)
  {
  }

  /** Toggling twice from an explicit theme restores it; from "system" it
      settles on the explicit theme the system was showing. */
  lemma ToggleTwice(t: Theme, prefersDark: bool)
    ensures t != System ==> Toggle(Toggle(t, prefersDark), prefersDark) == t
    ensures Name(Toggle(Toggle(t, prefersDark), prefersDark)) == Resolved(t, prefersDark)
  {
  }

  /** The hook's state: the stored theme, the preference the media query
      reports and the root element's classes. */
  class ThemeHook {
    var theme: Theme
    var prefersDark: bool
    var root: seq<string>

    /** The effect has run for the current theme and preference. */
    ghost predicate Valid()
      reads this
    {
      ShowsOnly(root, Resolved(theme, prefersDark))
    }

    /** Mounting with the stored theme (or the default), then running the
        effect. */
    constructor (stored: Option<Theme>, systemDark: bool, classes: seq<string>)
      ensures theme == stored.GetOr(DefaultTheme) && prefersDark == systemDark
      ensures root == Apply(classes, theme, systemDark)
      ensures Valid()
    {
      theme := stored.GetOr(DefaultTheme);
      prefersDark := systemDark;
      root := Apply(classes, stored.GetOr(DefaultTheme), systemDark);
    }

    /** `setTheme`, followed by the effect it triggers. */
    method SetTheme(t: Theme)
      modifies this
      ensures theme == t && prefersDark == old(prefersDark)
      ensures root == Apply(old(root), t, prefersDark)
      ensures Valid()
    {
      theme := t;
      root := Apply(root, t, prefersDark);
    }

    method SetLightTheme()
      modifies this
      ensures theme == Light && prefersDark == old(prefersDark)
      ensures root == Apply(old(root), Light, prefersDark)
      ensures Valid()
    {
      SetTheme(Light);
    }

    method SetDarkTheme()
      modifies this
      ensures theme == Dark && prefersDark == old(prefersDark)
      ensures root == Apply(old(root), Dark, prefersDark)
      ensures Valid()
    {
      SetTheme(Dark);
    }

    method SetSystemTheme()
      modifies this
      ensures theme == System && prefersDark == old(prefersDark)
      ensures root == Apply(old(root), System, prefersDark)
      ensures Valid()
    {
      SetTheme(System);
    }

    /** `toggleTheme`, reading the preference at the moment of the call. */
    method ToggleTheme()
      modifies this
      ensures theme == Toggle(old(theme), prefersDark) && prefersDark == old(prefersDark)
      ensures root == Apply(old(root), theme, prefersDark)
      ensures Valid()
      ensures Resolved(theme, prefersDark) != Resolved(old(theme), prefersDark)
    {
      ToggleFlipsAppearance(theme, prefersDark);
      if theme == Light {
        SetDarkTheme();
      } else if theme == Dark {
        SetLightTheme();
      } else {
        SetTheme(if prefersDark then Light else Dark);
      }
    }

    /** The system preference changes. While the theme is "system" the
        listener re-applies the class; otherwise the class stays as it is,
        which is still right because an explicit theme ignores the
        preference. */
    method PreferenceChanged(dark: bool)
      requires Valid()
      modifies this
      ensures theme == old(theme) && prefersDark == dark
      ensures theme == System ==> root == Apply(old(root), System, dark)
      ensures theme != System ==> root == old(root)
      ensures Valid()
    {
      prefersDark := dark;
      if theme == System {
        root := Apply(root, System, dark);
      }
    }
  }
}
