/** The data records of the core and the registry of Demucs models. */
module Models {
  import opened Wrappers
  import opened Text
  import Helpers

  /** The stages a separation run reports. */
  datatype ProcessingStatus =
    | Idle | Initializing | LoadingModel | Processing | Saving | Completed | Error | Cancelled

  /** The enumeration's value strings. */
  function StatusValue(s: ProcessingStatus): string {
    match s
    case Idle => "idle"
    case Initializing => "initializing"
    case LoadingModel => "loading_model"
    case Processing => "processing"
    case Saving => "saving"
    case Completed => "completed"
    case Error => "error"
    case Cancelled => "cancelled"
  }

  /** Every status, in declaration order. */
  const AllStatuses: seq<ProcessingStatus> :=
    [Idle, Initializing, LoadingModel, Processing, Saving, Completed, Error, Cancelled]

  /** The value strings identify the statuses: distinct statuses have distinct values. */
  lemma StatusValueInjective(a: ProcessingStatus, b: ProcessingStatus)
    ensures StatusValue(a) == StatusValue(b) <==> a == b
  {
    if a != b {
      assert StatusValue(a)[0] != StatusValue(b)[0] || |StatusValue(a)| != |StatusValue(b)|
          || StatusValue(a)[1] != StatusValue(b)[1];
    }
  }

  lemma AllStatusesComplete(s: ProcessingStatus)
    ensures s in AllStatuses
  {
  }

  /** `ModelInfo`: a registry entry. */
  datatype ModelInfo = ModelInfo(key: string, name: string, description: string, stems: seq<string>)

  /** `display_name`: "<name> - <description>". */
  function DisplayName(m: ModelInfo): (r: string)
    ensures StartsWith(r, m.name + " - ") && EndsWith(r, m.description)
    ensures |r| == |m.name| + 3 + |m.description|
  {
    var head := m.name + " - ";
    EndsWithAppend(head, m.description);
    assert (head + m.description)[..|head|] == head;
    head + m.description
  }

  /** `AudioFileInfo` with the duration in whole seconds. */
  datatype AudioFileInfo = AudioFileInfo(path: string, duration: int, sampleRate: int, channels: int, format: string)

  /** `duration_formatted`: floor minutes, a colon, two-digit seconds.  It is written
      separately from `format_duration` in the source and agrees with it. */
  function DurationFormatted(info: AudioFileInfo): (r: string)
    ensures r == Helpers.FormatDuration(info.duration)
    ensures info.duration >= 0 ==> Helpers.ParseDuration(r) == Some(info.duration)
  {
    var minutes, seconds := info.duration / 60, info.duration % 60;
    IntToString(minutes) + ":" + ZeroPad2(seconds)
  }

  /** `ProcessingResult`; the processing time is kept in tenths of a second. */
  datatype ProcessingResult = ProcessingResult(
    success: bool,
    outputFiles: seq<string>,
    errorMessage: string,
    elapsedTenths: nat)

  const FourStems: seq<string> := ["drums", "bass", "other", "vocals"]
  const SixStems: seq<string> := FourStems + ["piano", "guitar"]

  /** `AvailableModels.MODELS`, in the dictionary's insertion order. */
  const Registry: seq<ModelInfo> := [
    ModelInfo("htdemucs", "HTDemucs", "High quality separation with balanced performance", FourStems),
    ModelInfo("htdemucs_ft", "HTDemucs Fine-tuned", "Fine-tuned version with better vocals separation", FourStems),
    ModelInfo("mdx_extra", "MDX-Extra", "High quality separation optimized for vocals", FourStems),
    ModelInfo("mdx_extra_q", "MDX-Extra-Q", "Quantized version of MDX-Extra, faster but slightly lower quality", FourStems),
    ModelInfo("htdemucs_6s", "HTDemucs 6 Stems", "Separates into 6 stems including piano and guitar", SixStems)
  ]

  /** The keys of a list of entries, in order. */
  function KeysOf(entries: seq<ModelInfo>): (r: seq<string>)
    ensures |r| == |entries|
    ensures forall i :: 0 <= i < |r| ==> r[i] == entries[i].key
  {
    if |entries| == 0 then [] else [entries[0].key] + KeysOf(entries[1..])
  }

  /** The first entry with the given key, as a dictionary lookup finds it. */
  function Find(entries: seq<ModelInfo>, key: string): (r: Option<ModelInfo>)
    ensures r.None? <==> key !in KeysOf(entries)
    ensures r.Some? ==> r.value in entries && r.value.key == key
  {
    if |entries| == 0 then None
    else if entries[0].key == key then Some(entries[0])
    else
      assert KeysOf(entries) == [entries[0].key] + KeysOf(entries[1..]);
      Find(entries[1..], key)
  }

  /** `get_model_keys`: the registry's keys in insertion order. */
  function ModelKeys(): (r: seq<string>)
    ensures |r| == |Registry|
    ensures forall i :: 0 <= i < |r| ==> r[i] == Registry[i].key
  {
    KeysOf(Registry)
  }

  /** `get_model`: the entry for key, or None (`dict.get`) for an unknown key. */
  function GetModel(key: string): (r: Option<ModelInfo>)
    ensures r.None? <==> key !in ModelKeys()
    ensures r.Some? ==> r.value in Registry && r.value.key == key
  {
    Find(Registry, key)
  }

  /** A list of entries as a dictionary from key to entry. */
  function MapOf(entries: seq<ModelInfo>): (r: map<string, ModelInfo>)
    ensures forall k :: k in r <==> k in KeysOf(entries)
    ensures forall k :: k in r ==> Find(entries, k) == Some(r[k])
  {
    if |entries| == 0 then map[]
    else
      assert KeysOf(entries) == [entries[0].key] + KeysOf(entries[1..]);
      MapOf(entries[1..])[entries[0].key := entries[0]]
  }

  /** `get_all_models`: a copy of the registry as a dictionary from key to entry. */
  function AllModels(): (r: map<string, ModelInfo>)
    ensures forall k :: k in r <==> k in ModelKeys()
    ensures forall k :: k in r ==> GetModel(k) == Some(r[k])
  {
    MapOf(Registry)
  }

  /** The registry offers exactly these five keys, in this order, with no repeat. */
  lemma ModelKeysListed()
    ensures ModelKeys() == ["htdemucs", "htdemucs_ft", "mdx_extra", "mdx_extra_q", "htdemucs_6s"]
    ensures forall i, j :: 0 <= i < j < |ModelKeys()| ==> ModelKeys()[i] != ModelKeys()[j]
  {
    var ks := ModelKeys();
    assert ks[0] == "htdemucs" && ks[1] == "htdemucs_ft" && ks[2] == "mdx_extra";
    assert ks[3] == "mdx_extra_q" && ks[4] == "htdemucs_6s";
    assert ks[1][9] != ks[4][9] && ks[1][0] != ks[3][0] && ks[3][0] != ks[4][0];
  }

  /** Every model separates drums, bass, other and vocals first, in that order. */
  lemma StemVocabulary(m: ModelInfo)
    requires m in Registry
    ensures m.stems[..4] == FourStems
    ensures m.stems == FourStems || m.stems == SixStems
  {
  }

  /** Only `htdemucs_6s` adds piano and guitar. */
  lemma SixStemModel(m: ModelInfo)
    requires m in Registry
    ensures "piano" in m.stems <==> m.key == "htdemucs_6s"
    ensures "guitar" in m.stems <==> m.key == "htdemucs_6s"
  {
    assert "piano" !in FourStems && "guitar" !in FourStems;
    assert SixStems[4] == "piano" && SixStems[5] == "guitar";
  }

  /** The default model key names a four-stem model. */
  lemma DefaultModelKnown()
    ensures GetModel("htdemucs_ft").Some?
    ensures GetModel("htdemucs_ft").value.stems == FourStems
  {
    assert ModelKeys()[1] == "htdemucs_ft";
  }

  /** No two registry entries share a key, and no key is empty. */
  lemma RegistryKeysDistinct()
    ensures forall i, j :: 0 <= i < j < |ModelKeys()| ==> ModelKeys()[i] != ModelKeys()[j]
    ensures forall i :: 0 <= i < |ModelKeys()| ==> ModelKeys()[i] != ""
  {
    ModelKeysListed();
  }

  /** The default model key sits second in the registry. */
  lemma DefaultKeySecond()
    ensures |ModelKeys()| == 5 && ModelKeys()[1] == "htdemucs_ft" && ModelKeys()[0] == "htdemucs"
  {
    ModelKeysListed();
  }

  /** In a list with distinct keys, looking up an entry's key finds that entry. */
  lemma {:induction false} FindAt(entries: seq<ModelInfo>, i: nat)
    requires i < |entries|
    requires forall a, b :: 0 <= a < b < |entries| ==> KeysOf(entries)[a] != KeysOf(entries)[b]
    ensures Find(entries, entries[i].key) == Some(entries[i])
  {
    if i > 0 {
      assert KeysOf(entries)[0] != KeysOf(entries)[i];
      var rest := entries[1..];
      assert forall a, b :: 0 <= a < b < |rest| ==> KeysOf(rest)[a] != KeysOf(rest)[b] by {
        forall a, b | 0 <= a < b < |rest| ensures KeysOf(rest)[a] != KeysOf(rest)[b] {
          assert KeysOf(rest)[a] == KeysOf(entries)[a + 1] && KeysOf(rest)[b] == KeysOf(entries)[b + 1];
        }
      }
      FindAt(rest, i - 1);
      assert rest[i - 1] == entries[i];
    }
  }

  /** `get_model` of the i-th entry's key returns that entry. */
  lemma GetModelAt(i: nat)
    requires i < |Registry|
    ensures GetModel(Registry[i].key) == Some(Registry[i])
  {
    RegistryKeysDistinct();
    FindAt(Registry, i);
  }
}
