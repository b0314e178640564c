/** The voice selection store shared by the screens: the fetched voice list
    (absent until the fetch succeeds) and the selected voice id, from which
    the selected voice and the list shown to the user are derived. */
module VoiceStore {
  import opened Wrappers

  /** A voice as the server lists it. */
  datatype Voice = Voice(name: string, voice_id: string)

  /** The built-in selection before the user picks a voice. */
  const DefaultVoiceId: string := "EXAVITQu4vr4xnSDxMaL"

  /** `data` is the fetched list, or None while nothing has been fetched
      (still loading, or the fetch failed). */
  datatype Store = Store(selectedVoiceId: string, data: Option<seq<Voice>>)

  /** The store as the provider first creates it, over whatever the fetch
      has delivered. */
  function Init(data: Option<seq<Voice>>): (r: Store)
    ensures r.selectedVoiceId == "EXAVITQu4vr4xnSDxMaL"
    ensures r.data == data
  {
    Store(DefaultVoiceId, data)
  }

  /** Index of the first voice whose id is `id`, scanning from the front as
      `Array.prototype.find` does. */
  function IndexOf(vs: seq<Voice>, id: string): (r: Option<nat>)
    ensures r.Some? ==> r.value < |vs| && vs[r.value].voice_id == id
    ensures r.Some? ==> forall j :: 0 <= j < r.value ==> vs[j].voice_id != id
    ensures r.None? <==> forall j :: 0 <= j < |vs| ==> vs[j].voice_id != id
    decreases |vs|
  {
    if vs == [] then None
    else if vs[0].voice_id == id then Some(0)
    else
      match IndexOf(vs[1..], id)
      case Some(i) => Some(i + 1)
      case None => None
  }

  /** `voices`: the fetched list, or the empty list when there is none. */
  function Voices(st: Store): (r: seq<Voice>)
    ensures st.data.None? ==> r == []
    ensures st.data.Some? ==> r == st.data.value
  {
    st.data.GetOr([])
  }

  /** `selectedVoice`: the first fetched voice whose id is the selected id;
      None when nothing has been fetched or no voice matches. */
  function SelectedVoice(st: Store): (r: Option<Voice>)
    ensures r.Some? ==> st.data.Some? && r.value in st.data.value
    ensures r.Some? ==> r.value.voice_id == st.selectedVoiceId
    ensures r.None? <==>
      st.data.None? || forall j :: 0 <= j < |st.data.value| ==> st.data.value[j].voice_id != st.selectedVoiceId
  {
    match st.data
    case None => None
    case Some(vs) =>
      match IndexOf(vs, st.selectedVoiceId)
      case Some(i) => Some(vs[i])
      case None => None
  }

  /** `setSelectedVoiceId`: replaces the selection; the fetched list is
      untouched. */
  function SetSelectedVoiceId(st: Store, id: string): (r: Store)
    ensures r.selectedVoiceId == id
    ensures r.data == st.data && Voices(r) == Voices(st)
  {
    st.(selectedVoiceId := id)
  }

  /** With nothing fetched the user sees an empty list and no selected voice,
      whatever the selected id. */
  lemma NoDataNoSelection(st: Store)
    requires st.data.None?
    ensures Voices(st) == []
    ensures SelectedVoice(st) == None
  {
  }

  /** The selected voice is one of the listed voices and carries the selected
      id. */
  lemma SelectedIsListed(st: Store)
    requires SelectedVoice(st).Some?
    ensures SelectedVoice(st).value in Voices(st)
    ensures SelectedVoice(st).value.voice_id == st.selectedVoiceId
  {
  }

  /** The selected voice is the first one in list order with the selected id:
      an earlier match is never skipped, a later duplicate never chosen. */
  lemma SelectedIsFirstMatch(st: Store, i: nat)
    requires st.data.Some? && i < |st.data.value|
    requires st.data.value[i].voice_id == st.selectedVoiceId
    requires forall j :: 0 <= j < i ==> st.data.value[j].voice_id != st.selectedVoiceId
    ensures SelectedVoice(st) == Some(st.data.value[i])
  {
    var vs := st.data.value;
    var k := IndexOf(vs, st.selectedVoiceId);
    assert k.Some?;
    assert !(k.value < i) && !(i < k.value);
  }

  /** Voice ids are unique in the list (the server's promise). */
  predicate UniqueIds(vs: seq<Voice>) {
    forall i, j :: 0 <= i < |vs| && 0 <= j < |vs| && vs[i].voice_id == vs[j].voice_id ==> i == j
  }

  /** With unique ids, the selected voice is the one listed voice with the
      selected id. */
  lemma SelectedIsTheMatch(st: Store, v: Voice)
    requires st.data.Some? && UniqueIds(st.data.value)
    requires v in st.data.value && v.voice_id == st.selectedVoiceId
    ensures SelectedVoice(st) == Some(v)
  {
    var vs := st.data.value;
    var i :| 0 <= i < |vs| && vs[i] == v;
    SelectedIsFirstMatch(st, i);
  }

  /** Last writer wins: a second selection replaces the first entirely. */
  lemma LastWriterWins(st: Store, a: string, b: string)
    ensures SetSelectedVoiceId(SetSelectedVoiceId(st, a), b) == SetSelectedVoiceId(st, b)
  {
  }

  /** Picking a listed voice in the selector (`setSelectedVoiceId(voice.voice_id)`)
      makes a voice with that id the selected voice; with unique ids it is the
      picked voice itself. */
  lemma PickSelects(st: Store, v: Voice)
    requires v in Voices(st)
    ensures SelectedVoice(SetSelectedVoiceId(st, v.voice_id)).Some?
    ensures SelectedVoice(SetSelectedVoiceId(st, v.voice_id)).value.voice_id == v.voice_id
    ensures UniqueIds(Voices(st)) ==> SelectedVoice(SetSelectedVoiceId(st, v.voice_id)) == Some(v)
  {
    var r := SetSelectedVoiceId(st, v.voice_id);
    assert st.data.Some?;
    var i :| 0 <= i < |st.data.value| && st.data.value[i] == v;
    assert r.data.value[i].voice_id == r.selectedVoiceId;
    if UniqueIds(Voices(st)) {
      SelectedIsTheMatch(r, v);
    }
  }
}
