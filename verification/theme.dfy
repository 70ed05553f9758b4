/** The colour theme of `src/contexts/ThemeContext.tsx`: the mode starts light,
    is restored on mount from local storage or the system preference, is
    mirrored into the `data-theme` attribute and local storage after every
    change, and flips on `toggleTheme`. Local storage and the document
    attribute are state fields; the system preference is an input. */
module Theme {
  import opened Wrappers

  datatype Mode = Light | Dark

  /** The mode as it is stored and written to the attribute. */
  function ModeString(m: Mode): string {
    match m
    case Light => "light"
    case Dark => "dark"
  }

  const StorageKey := "theme-mode"

  /** The provider's mode, the document's `data-theme` attribute (absent until
      first written) and local storage. */
  datatype State = State(mode: Mode, attribute: Option<string>, storage: map<string, string>)

  /** The attribute and the stored value both name the current mode. */
  predicate Mirrored(s: State) {
    s.attribute == Some(ModeString(s.mode)) && StorageKey in s.storage && s.storage[StorageKey] == ModeString(s.mode)
  }

  /** The saved value counts only when it is exactly `light` or `dark`. */
  function ParseMode(saved: string): (r: Option<Mode>)
    ensures r.Some? ==> ModeString(r.value) == saved
    ensures r.None? ==> saved != "light" && saved != "dark"
  {
    if saved == "light" then Some(Light) else if saved == "dark" then Some(Dark) else None
  }

  /** Every mode reads back as itself. */
  lemma ParseModeString(m: Mode)
    ensures ParseMode(ModeString(m)) == Some(m)
  {
    if m == Dark {
      assert ModeString(m)[0] != "light"[0];
    }
  }

  /** The restoring effect's choice: a valid saved mode, otherwise dark exactly
      when the system prefers dark. */
  function RestoredMode(storage: map<string, string>, prefersDark: bool): (m: Mode)
    ensures StorageKey in storage && ParseMode(storage[StorageKey]).Some? ==> m == ParseMode(storage[StorageKey]).value
    ensures (StorageKey !in storage || ParseMode(storage[StorageKey]).None?) ==> (m == Dark <==> prefersDark)
  {
    if StorageKey in storage && ParseMode(storage[StorageKey]).Some? then ParseMode(storage[StorageKey]).value
    else if prefersDark then Dark
    else Light
  }

  /** The persisting effect: the attribute and storage take the current mode;
      no other stored key changes. */
  function Persist(s: State): (r: State)
    ensures r.mode == s.mode && Mirrored(r)
    ensures forall k :: k != StorageKey ==> (k in r.storage <==> k in s.storage)
    ensures forall k :: k != StorageKey && k in s.storage ==> r.storage[k] == s.storage[k]
  {
    var v := ModeString(s.mode);
    State(s.mode, Some(v), s.storage[StorageKey := v])
  }

  /** Mounting the provider: the mode starts light; after the first render the
      restoring effect reads storage and the persisting effect writes `light`;
      the restored mode then renders and is persisted in turn. */
  function Mount(storage: map<string, string>, attribute: Option<string>, prefersDark: bool): (r: State)
    ensures r.mode == RestoredMode(storage, prefersDark)
    ensures Mirrored(r)
    ensures forall k :: k != StorageKey ==> (k in r.storage <==> k in storage)
    ensures forall k :: k != StorageKey && k in storage ==> r.storage[k] == storage[k]
  {
    var initial := State(Light, attribute, storage);
    var restored := RestoredMode(initial.storage, prefersDark);
    var first := Persist(initial);
    Persist(State(restored, first.attribute, first.storage))
  }

  function Flip(m: Mode): Mode {
    if m == Light then Dark else Light
  }

  /** `toggleTheme` followed by the persisting effect it triggers. */
  function Toggle(s: State): (r: State)
    ensures r.mode != s.mode
    ensures Mirrored(r)
    ensures forall k :: k != StorageKey ==> (k in r.storage <==> k in s.storage)
    ensures forall k :: k != StorageKey && k in s.storage ==> r.storage[k] == s.storage[k]
  {
    Persist(State(Flip(s.mode), s.attribute, s.storage))
  }

  /** `isDark`. */
  predicate IsDark(s: State) {
    s.mode == Dark
  }

  /** Toggling flips `isDark`, and toggling twice restores the mode; a
      mirrored state comes back exactly. */
  lemma ToggleTwice(s: State)
    ensures IsDark(Toggle(s)) <==> !IsDark(s)
    ensures Toggle(Toggle(s)).mode == s.mode
    ensures Mirrored(s) ==> Toggle(Toggle(s)) == s
  {
    if Mirrored(s) {
      assert Toggle(Toggle(s)).storage == s.storage;
    }
  }

  /** The state after mounting and then toggling `n` times: it is always
      mirrored, and its mode is the restored one flipped `n` times. */
  function AfterToggles(s: State, n: nat): (r: State)
    requires Mirrored(s)
    ensures Mirrored(r)
    ensures r.mode == (if n % 2 == 0 then s.mode else Flip(s.mode))
    ensures forall k :: k != StorageKey ==> (k in r.storage <==> k in s.storage)
    ensures forall k :: k != StorageKey && k in s.storage ==> r.storage[k] == s.storage[k]
    decreases n
  {
    if n == 0 then s else AfterToggles(Toggle(s), n - 1)
  }

  /** Whatever the mode was when the page was left, the next mount restores it,
      whatever the system preference. */
  lemma RemountRestores(s: State, prefersDark: bool)
    requires Mirrored(s)
    ensures Mount(s.storage, s.attribute, prefersDark).mode == s.mode
  {
    ParseModeString(s.mode);
  }
}
