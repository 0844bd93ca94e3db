/** The table store's filter cache (slatedb/store/table_store.go): whatever is written, read and
    evicted, a filter read through the cache is the filter in the stored bytes.
 */
module TableStores {
  import opened Tables
  import opened Keys
  import opened Rows
  import opened Formats
  import opened Blocks
  import opened Bloom
  import opened SstFormat
  import opened SstBuilders
  import opened SstIterators

  /** What a reader finds when it decodes the filter of the stored file. */
  function FilterInFile(f: Formats, t: StoredSst): Decoded<Option<Filter>> {
    SstFormat.ReadFilter(f, t.info, t.file)
  }

  ghost predicate Agrees(f: Formats, files: map<nat, StoredSst>, cache: map<nat, Option<Filter>>) {
    forall id :: id in cache ==> id in files && FilterInFile(f, files[id]) == Ok(cache[id])
  }

  /** The filter that the builder hands over is the one that its file decodes to. */
  lemma UploadedFilter(conf: Config, es: seq<Entry>, t: StoredSst, filter: Option<Filter>)
    requires Uploads(conf, es, t.file, t.info, filter) && ConfigOk(conf)
    ensures FilterInFile(conf.formats, t) == Ok(filter)
  {
    hide IsFilterOf, HashesOf, FileOf, InfoOf, HasFilter, ConfigOk, ReadFilter;
    ReadFilterBack(conf, es, FilterOr(filter), t.file);
  }

  class TableStore {
    const conf: Config
    var files: map<nat, StoredSst>
    var filterCache: map<nat, Option<Filter>>

    ghost predicate Valid()
      reads this
    {
      Agrees(conf.formats, files, filterCache)
    }

    constructor (conf: Config)
      ensures Valid() && this.conf == conf && files == map[]
    {
      this.conf, files, filterCache := conf, map[], map[];
    }

    /** WriteSST, and Close of the streaming writer: upload the file and cache the builder's filter. */
    method Store(id: nat, t: StoredSst, filter: Option<Filter>, ghost es: seq<Entry>)
      requires Valid() && Uploads(conf, es, t.file, t.info, filter) && ConfigOk(conf)
      modifies this
      ensures Valid() && files == old(files)[id := t]
      ensures filterCache == old(filterCache)[id := filter]
    {
      hide Uploads, ConfigOk, FilterInFile;
      UploadedFilter(conf, es, t, filter);
      files := files[id := t];
      filterCache := filterCache[id := filter];
    }

    /** The cache may drop what it likes. */
    method Evict(ids: set<nat>)
      requires Valid()
      modifies this`filterCache
      ensures Valid() && forall id :: id in old(filterCache) && id !in ids ==> id in filterCache
    {
      filterCache := filterCache - ids;
    }

    /** Through the cache or not, the answer is the filter in the stored file. */
    method ReadFilter(id: nat) returns (r: Decoded<Option<Filter>>)
      requires Valid() && id in files
      modifies this`filterCache
      ensures Valid() && r == FilterInFile(conf.formats, files[id])
      ensures r.Ok? ==> id in filterCache && filterCache[id] == r.value
    {
      hide FilterInFile;
      if id in filterCache {
        return Ok(filterCache[id]);
      }
      r := FilterInFile(conf.formats, files[id]);
      if r.Ok? {
        filterCache := filterCache[id := r.value];
      }
    }
  }
}
