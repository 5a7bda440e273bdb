/**
 * The state of the `App` component and the transitions that change it: loading a playlist
 * (with the network request replaced by its outcome), choosing a channel, typing a search
 * term and choosing a dropdown option.
 */
module AppState {
  import opened Wrappers
  import opened Types
  import M3U
  import Catalog
  import Recent

  /** How `fetch(url)` and `response.text()` ended. */
  datatype FetchOutcome =
    | Loaded(text: string)       // `response.ok`, and the body was read
    | NotOk                      // the server answered, but `response.ok` is false
    | Failed(message: string)    // a rejection with an `Error` carrying `message`
    | FailedOther                // a rejection with a value that is not an `Error`

  const NotOkMessage: string := "Error al cargar la lista"
  const UnknownMessage: string := "Error desconocido"

  /** The message the `catch` block stores, or `None` when nothing was thrown. */
  function ErrorOf(outcome: FetchOutcome): (r: Option<string>)
    ensures r.None? <==> outcome.Loaded?
    ensures outcome.Failed? ==> r == Some(outcome.message)
  {
    match outcome
    case Loaded(_) => None
    case NotOk => Some(NotOkMessage)
    case Failed(m) => Some(m)
    case FailedOther => Some(UnknownMessage)
  }

  class App {
    var channels: seq<Channel>
    var selectedChannel: Option<Channel>
    var loading: bool
    var error: Option<string>
    var searchTerm: string
    var filter: Filter
    var recentChannels: seq<Channel>

    /** What every transition keeps: a short recent list without repeated urls, no empty filter value. */
    ghost predicate Valid()
      reads this
    {
      && |recentChannels| <= Recent.MaxRecent
      && Recent.DistinctUrls(recentChannels)
      && Catalog.NoEmptyValue(filter)
    }

    /** The initial `useState` values (the stored recent list is not read). */
    constructor()
      ensures Valid()
      ensures channels == [] && selectedChannel == None && !loading && error == None
      ensures searchTerm == "" && filter == NoFilter && recentChannels == []
    {
      channels := [];
      selectedChannel := None;
      loading := false;
      error := None;
      searchTerm := "";
      filter := NoFilter;
      recentChannels := [];
    }

    /** `filteredChannels`, recomputed from the current state. */
    function VisibleChannels(): seq<Channel>
      reads this
    {
      Catalog.FilteredChannels(channels, searchTerm, filter)
    }

    /** `uniqueValues(key)`: it reads the channel list only. */
    function FilterOptions(key: FilterKey): seq<string>
      reads this
    {
      Catalog.UniqueValues(channels, key)
    }

    /** `setLoading(true); setError(null)` at the start of `loadPlaylist`. */
    method StartLoad()
      requires Valid()
      modifies this
      ensures Valid()
      ensures loading && error == None
      ensures channels == old(channels) && selectedChannel == old(selectedChannel)
      ensures searchTerm == old(searchTerm) && filter == old(filter) && recentChannels == old(recentChannels)
    {
      loading := true;
      error := None;
    }

    /**
     * The rest of `loadPlaylist`: a body replaces the channel list with what the parser
     * reads from it; a failure keeps the list and stores the message; loading ends either way.
     */
    method FinishLoad(outcome: FetchOutcome)
      requires Valid()
      modifies this
      ensures Valid()
      ensures channels == (if outcome.Loaded? then M3U.Parse(outcome.text) else old(channels))
      ensures error == (if outcome.Loaded? then old(error) else ErrorOf(outcome))
      ensures !loading
      ensures selectedChannel == old(selectedChannel) && searchTerm == old(searchTerm)
      ensures filter == old(filter) && recentChannels == old(recentChannels)
    {
      match outcome {
        case Loaded(text) =>
          var parsed := M3U.ParseM3U(text);
          channels := parsed;
        case NotOk =>
          error := Some(NotOkMessage);
        case Failed(m) =>
          error := Some(m);
        case FailedOther =>
          error := Some(UnknownMessage);
      }
      loading := false;
    }

    /** `loadPlaylist(url)` with the outcome of its request. */
    method LoadPlaylist(outcome: FetchOutcome)
      requires Valid()
      modifies this
      ensures Valid()
      ensures channels == (if outcome.Loaded? then M3U.Parse(outcome.text) else old(channels))
      ensures error == ErrorOf(outcome) && !loading
      ensures selectedChannel == old(selectedChannel) && searchTerm == old(searchTerm)
      ensures filter == old(filter) && recentChannels == old(recentChannels)
    {
      StartLoad();
      FinishLoad(outcome);
    }

    /** `handleChannelSelect(channel)`, less the sidebar: play it and record it as recent. */
    method SelectChannel(c: Channel)
      requires Valid()
      modifies this
      ensures Valid()
      ensures selectedChannel == Some(c) && recentChannels == Recent.UpdateRecent(old(recentChannels), c)
      ensures channels == old(channels) && loading == old(loading) && error == old(error)
      ensures searchTerm == old(searchTerm) && filter == old(filter)
    {
      Recent.UpdateKeepsDistinct(recentChannels, c);
      selectedChannel := Some(c);
      recentChannels := Recent.UpdateRecent(recentChannels, c);
    }

    /** `setSearchTerm(term)`, once the debounce has fired. */
    method SetSearchTerm(term: string)
      requires Valid()
      modifies this
      ensures Valid()
      ensures searchTerm == term
      ensures channels == old(channels) && selectedChannel == old(selectedChannel) && loading == old(loading)
      ensures error == old(error) && filter == old(filter) && recentChannels == old(recentChannels)
    {
      searchTerm := term;
    }

    /** One of the three dropdowns set to `value` (the first option's value is `""`). */
    method ChooseOption(key: FilterKey, value: string)
      requires Valid()
      modifies this
      ensures Valid()
      ensures filter == Catalog.WithOption(old(filter), key, value)
      ensures channels == old(channels) && selectedChannel == old(selectedChannel) && loading == old(loading)
      ensures error == old(error) && searchTerm == old(searchTerm) && recentChannels == old(recentChannels)
    {
      filter := Catalog.WithOption(filter, key, value);
    }
  }
}
