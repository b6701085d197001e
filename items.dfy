/**
 * The scraped records: ModItem and ModFileItem from mpm/items.py. A record is
 * a mutable mapping from field name to value, shared by reference between
 * the requests that carry it.
 */
module Items {

  /**
   * A field value. Text is what the ModItem loader keeps; Dict is the
   * dependency dict built for a file; Unprocessed stands for what the
   * ModFileItem loader is handed for a field (that loader is not defined in
   * the repository, so what it makes of its inputs is not modelled).
   */
  datatype Value =
    | Text(text: string)
    | Dict(lists: map<string, seq<string>>)
    | Unprocessed(inputs: seq<Value>)

  /** The fields ModItem declares. */
  const ModItemFields: set<string> :=
    {"name", "description", "authors", "created", "updated", "downloads", "categories",
     "source_url", "donation_url", "mod_url", "mod_license", "smp"}

  /** The fields ModFileItem declares. */
  const ModFileItemFields: set<string> :=
    {"mod", "name", "release", "mc_version", "size", "upload_date", "downloads", "download_url"}

  /** A scrapy Item: a dict of fields, updated in place. */
  class Item {
    var fields: map<string, Value>

    /** ModItem() / ModFileItem(): a record with no field set. */
    constructor ()
      ensures fields == map[]
    {
      fields := map[];
    }

    /** item[key] = value */
    method Put(key: string, value: Value)
      modifies this
      ensures fields == old(fields)[key := value]
    {
      fields := fields[key := value];
    }

    /** loader.load_item() on this record: every field the loader produced is written, the rest is kept. */
    method Load(loaded: map<string, Value>)
      modifies this
      ensures fields == old(fields) + loaded
      ensures forall k :: k in old(fields) && k !in loaded ==> k in fields && fields[k] == old(fields)[k]
    {
      fields := fields + loaded;
    }
  }
}
