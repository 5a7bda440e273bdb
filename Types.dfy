/** The two records of the catalog: a playable channel and the dropdown filter. */
module Types {
  import opened Wrappers

  /** Program-guide metadata copied from the playlist's `tvg-*` attributes. */
  datatype Tvg = Tvg(id: Option<string>, name: Option<string>, logo: Option<string>, url: Option<string>)

  datatype Channel = Channel(
    name: string,
    url: string,
    country: Option<string>,
    language: Option<string>,
    category: Option<string>,
    quality: Option<string>,
    logo: Option<string>,
    tvg: Option<Tvg>)

  /** Each field is either absent (no constraint) or the value chosen in its dropdown. */
  datatype Filter = Filter(country: Option<string>, language: Option<string>, category: Option<string>)

  const NoFilter: Filter := Filter(None, None, None)

  /** The keys of `Filter`, which are also the filterable fields of `Channel`. */
  datatype FilterKey = Country | Language | Category

  /** `channel[key]` */
  function ChannelField(c: Channel, key: FilterKey): Option<string> {
    match key
    case Country => c.country
    case Language => c.language
    case Category => c.category
  }

  /** `filter[key]` */
  function FilterField(f: Filter, key: FilterKey): Option<string> {
    match key
    case Country => f.country
    case Language => f.language
    case Category => f.category
  }
}
