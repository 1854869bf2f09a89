/**
 * The scraped character record (`FandomCharacterItem`). Every field may be
 * unset, as in a Scrapy item: None is a field that was never assigned,
 * which `ItemAdapter.get` reads as None and `adapter[...]` refuses.
 */
module Items {
  import opened Optional

  datatype Record = Record(
    name: Option<string>,
    imageUrl: Option<string>,
    description: Option<string>,
    characterType: Option<string>,
    attribute1: Option<string>,
    attribute2: Option<string>,
    fandomUrl: Option<string>,
    fandomName: Option<string>,
    pageUrl: Option<string>,
    scrapedAt: Option<string>,
    additionalImages: Option<seq<string>>,
    categories: Option<seq<string>>,
    infoboxData: Option<map<string, string>>)

  /** A record with no field set. */
  const EmptyRecord := Record(None, None, None, None, None, None, None, None, None, None, None, None, None)

  /** Python truthiness of an optional string field: set and non-empty. */
  predicate Truthy(field: Option<string>) {
    field.Some? && field.value != []
  }

  /**
   * A Scrapy item object. The pipelines receive the same object one after
   * the other and may change its fields in place.
   */
  class CharacterItem {
    var data: Record

    constructor (data: Record)
      ensures this.data == data
    {
      this.data := data;
    }
  }
}
