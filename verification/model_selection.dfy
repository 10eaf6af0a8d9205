/** The model combo box: one item per registry entry, showing the display name
    and carrying the key, and the change notification it sends. */
module ModelSelection {
  import opened Wrappers
  import opened Models
  import opened Settings
  import opened Seqs

  /** A combo item: the text shown and the key stored as its data. */
  datatype Item = Item(text: string, key: string)

  /** The items and the current index (-1 while there is none). */
  datatype Combo = Combo(items: seq<Item>, current: int)

  /** One item per entry, in order. */
  function ItemsOf(entries: seq<ModelInfo>): (r: seq<Item>)
    ensures |r| == |entries|
    ensures forall i :: 0 <= i < |r| ==> r[i] == Item(DisplayName(entries[i]), entries[i].key)
  {
    seq(|entries|, i requires 0 <= i < |entries| => Item(DisplayName(entries[i]), entries[i].key))
  }

  /** The keys the items carry, in order. */
  function ItemKeys(items: seq<Item>): (r: seq<string>)
    ensures |r| == |items|
    ensures forall i :: 0 <= i < |r| ==> r[i] == items[i].key
  {
    seq(|items|, i requires 0 <= i < |items| => items[i].key)
  }

  /** `populate_models`: the registry's entries in order, the current index at the
      configured default key when the registry has it and at 0 otherwise.  The
      change handler is connected only afterwards, so populating notifies no one.
      The loop overwrites the index at every match, so it stops at the last one. */
  function Populate(settings: AppSettings): (r: Combo)
    ensures ItemKeys(r.items) == ModelKeys()
    ensures forall i :: 0 <= i < |r.items| ==> r.items[i].text == DisplayName(Registry[i])
    ensures 0 <= r.current < |r.items|
    ensures settings.defaultModel in ModelKeys() ==> r.items[r.current].key == settings.defaultModel
    ensures settings.defaultModel !in ModelKeys() ==> r.current == 0
  {
    DefaultKeySecond();
    PopulateFrom(Registry, settings.defaultModel)
  }

  /** The combo over any non-empty list of entries. */
  function PopulateFrom(entries: seq<ModelInfo>, defaultKey: string): (r: Combo)
    requires |entries| > 0
    ensures ItemKeys(r.items) == KeysOf(entries)
    ensures forall i :: 0 <= i < |r.items| ==> r.items[i].text == DisplayName(entries[i])
    ensures 0 <= r.current < |r.items|
    ensures defaultKey in KeysOf(entries) ==> r.items[r.current].key == defaultKey
    ensures defaultKey !in KeysOf(entries) ==> r.current == 0
  {
    var items := ItemsOf(entries);
    assert ItemKeys(items) == KeysOf(entries);
    match LastIndexOf(ItemKeys(items), defaultKey)
    case None => Combo(items, 0)
    case Some(i) => Combo(items, i)
  }


  /** `currentData()`: the key of the current item, None when there is none. */
  function CurrentData(c: Combo): (r: Option<string>)
    ensures r.Some? <==> 0 <= c.current < |c.items|
    ensures r.Some? ==> r.value == c.items[c.current].key
  {
    if 0 <= c.current < |c.items| then Some(c.items[c.current].key) else None
  }

  /** `on_model_changed`: the key `model_changed` carries, if the current key is
      non-empty. */
  function OnModelChanged(c: Combo): (r: Option<string>)
    ensures r.Some? ==> r.value != "" && CurrentData(c) == Some(r.value)
    ensures r.None? ==> CurrentData(c).None? || CurrentData(c) == Some("")
  {
    match CurrentData(c)
    case Some(key) => if key != "" then Some(key) else None
    case None => None
  }

  /** `get_selected_model`: the current key, or the configured default when that
      key is missing or empty. */
  function SelectedModel(c: Combo, settings: AppSettings): (r: string)
    ensures CurrentData(c).Some? && CurrentData(c).value != "" ==> r == CurrentData(c).value
    ensures CurrentData(c).None? || CurrentData(c) == Some("") ==> r == settings.defaultModel
  {
    match CurrentData(c)
    case Some(key) => if key != "" then key else settings.defaultModel
    case None => settings.defaultModel
  }

  /** `setCurrentIndex` on a populated combo: a new index notifies the change
      handler, which forwards a non-empty key; the same index notifies nothing. */
  function SetCurrentIndex(c: Combo, i: nat): (r: (Combo, Option<string>))
    requires i < |c.items|
    ensures r.0.items == c.items && r.0.current == i
    ensures i == c.current ==> r.1.None?
    ensures i != c.current ==> r.1 == (if c.items[i].key != "" then Some(c.items[i].key) else None)
  {
    var next := c.(current := i);
    if i == c.current then (next, None) else (next, OnModelChanged(next))
  }

  /** `set_selected_model`: select the first item with the key; an unknown key
      leaves the combo as it is. */
  function SetSelectedModel(c: Combo, key: string): (r: (Combo, Option<string>))
    ensures key !in ItemKeys(c.items) ==> r == (c, None)
    ensures key in ItemKeys(c.items) ==> r.0.items == c.items && CurrentData(r.0) == Some(key)
  {
    match FirstIndexOf(ItemKeys(c.items), key)
    case None => (c, None)
    case Some(i) => SetCurrentIndex(c, i)
  }

  /** Whatever the configured default, the populated combo offers a registry key,
      which is the default itself when the registry has it and "htdemucs"
      otherwise. */
  lemma PopulatedSelection(settings: AppSettings)
    ensures GetModel(SelectedModel(Populate(settings), settings)).Some?
    ensures settings.defaultModel in ModelKeys() ==> SelectedModel(Populate(settings), settings) == settings.defaultModel
    ensures settings.defaultModel !in ModelKeys() ==> SelectedModel(Populate(settings), settings) == "htdemucs"
  {
    var c := Populate(settings);
    RegistryKeysDistinct();
    DefaultKeySecond();
    assert c.items[c.current].key == ModelKeys()[c.current];
  }

  /** With the default settings the combo starts on the second entry, HTDemucs
      Fine-tuned. */
  lemma PopulateDefaults()
    ensures Populate(Defaults).current == 1
  {
    var c := Populate(Defaults);
    RegistryKeysDistinct();
    DefaultKeySecond();
    assert ModelKeys()[c.current] == ModelKeys()[1];
  }

  /** Selecting a registry key in a combo holding the registry makes it the
      selected model, and notifies the change only when it moves the index. */
  lemma SetThenSelected(c: Combo, settings: AppSettings, key: string)
    requires ItemKeys(c.items) == ModelKeys() && 0 <= c.current < |c.items|
    requires key in ModelKeys()
    ensures var (next, sent) := SetSelectedModel(c, key);
      && SelectedModel(next, settings) == key
      && (sent.Some? <==> key != SelectedModel(c, settings))
  {
    RegistryKeysDistinct();
    SetThenSelectedAmong(c, settings, key);
  }

  /** The same for any combo whose keys are distinct and non-empty. */
  lemma SetThenSelectedAmong(c: Combo, settings: AppSettings, key: string)
    requires forall i, j :: 0 <= i < j < |c.items| ==> c.items[i].key != c.items[j].key
    requires forall i :: 0 <= i < |c.items| ==> c.items[i].key != ""
    requires 0 <= c.current < |c.items| && key in ItemKeys(c.items)
    ensures var (next, sent) := SetSelectedModel(c, key);
      && SelectedModel(next, settings) == key
      && (sent.Some? <==> key != SelectedModel(c, settings))
  {
    var keys := ItemKeys(c.items);
    var j := FirstIndexOf(keys, key).value;
    assert keys[j] == key && keys[c.current] == SelectedModel(c, settings);
    assert j != c.current <==> key != SelectedModel(c, settings);
  }
}
