/**
 * The services mega menu of the navigation bar (src/components/Navbar.tsx).
 *
 * The fetched services are grouped by category (an empty or missing
 * category files the service under "Others"). Until a category is picked,
 * the welcome modal offers the group names; afterwards the menu shows only
 * the picked group, listing the services that have an `_id`.
 */
module Navbar {

  import opened Js
  import opened Types
  import Seqs

  /** `service.serviceCategory || "Others"`. */
  function MenuKey(e: EnhancedService): string {
    StrOr(e.service.serviceCategory, "Others")
  }

  /** `grouped`: the reduce over the fetched services. */
  function Categories(services: seq<EnhancedService>): seq<Seqs.Group<EnhancedService>> {
    Seqs.GroupBy(services, MenuKey)
  }

  /**
   * Every fetched service is in exactly the group of its category (or
   * "Others"), each group lists its services in fetch order, no group is
   * empty and the groups come in order of first appearance.
   */
  lemma CategoriesPartition(services: seq<EnhancedService>, e: EnhancedService)
    requires e in services
    ensures exists i :: 0 <= i < |Categories(services)|
              && Categories(services)[i].key == MenuKey(e) && e in Categories(services)[i].members
    ensures forall i :: (0 <= i < |Categories(services)| && e in Categories(services)[i].members)
              ==> Categories(services)[i].key == MenuKey(e)
    ensures forall i :: 0 <= i < |Categories(services)| ==>
              Categories(services)[i].members ==
              Seqs.Filter(services, Seqs.KeyIs(MenuKey, Categories(services)[i].key))
    ensures forall i :: 0 <= i < |Categories(services)| ==> Categories(services)[i].members != []
    ensures Seqs.Keys(Categories(services)) == Seqs.Dedup(Seqs.Map(services, MenuKey))
  {
    var gs := Categories(services);
    Seqs.GroupByPartition(services, MenuKey, e);
    Seqs.GroupByMembers(services, MenuKey);
    Seqs.GroupByKeys(services, MenuKey);
    Seqs.GroupByNonEmpty(services, MenuKey);
    var i :| 0 <= i < |gs| && gs[i].key == MenuKey(e) && e in gs[i].members;
  }

  /** No group is named by the empty string: an empty category goes to "Others". */
  lemma NoEmptyGroupName(services: seq<EnhancedService>)
    ensures forall i :: 0 <= i < |Categories(services)| ==> Categories(services)[i].key != ""
  {
    var gs := Categories(services);
    Seqs.GroupByKeys(services, MenuKey);
    Seqs.DedupMembers(Seqs.Map(services, MenuKey));
    forall i | 0 <= i < |gs|
      ensures gs[i].key != ""
    {
      assert Seqs.Keys(gs)[i] in Seqs.Map(services, MenuKey);
    }
  }

  /** One entry of `filteredCategories`: a key and `categories[key]`, which is undefined for an unknown key. */
  datatype Section = Section(category: string, services: Option<seq<EnhancedService>>)

  /** `filteredCategories`: nothing until a category is picked, then exactly the picked one. */
  function FilteredCategories(categories: seq<Seqs.Group<EnhancedService>>, selected: Option<string>)
    : (r: seq<Section>)
    ensures !StrTruthy(selected) ==> r == []
    ensures StrTruthy(selected) ==> |r| == 1 && r[0].category == selected.value
    ensures StrTruthy(selected) && selected.value !in Seqs.Keys(categories) ==> r[0].services.None?
    ensures StrTruthy(selected) && selected.value in Seqs.Keys(categories) ==>
              exists i :: 0 <= i < |categories| && categories[i].key == selected.value
                && r[0].services == Some(categories[i].members)
  {
    if StrTruthy(selected) then [Section(selected.value, Seqs.Lookup(categories, selected.value))] else []
  }

  /** The welcome modal: shown only before a category is picked, listing `Object.keys(categories)`. */
  function WelcomeModal(categories: seq<Seqs.Group<EnhancedService>>, selected: Option<string>)
    : (r: Option<seq<string>>)
    ensures r.Some? <==> !StrTruthy(selected)
    ensures r.Some? ==> |r.value| == |categories|
    ensures r.Some? ==> forall i :: 0 <= i < |categories| ==> r.value[i] == categories[i].key
  {
    if StrTruthy(selected) then None else Some(Seqs.Keys(categories))
  }

  /** The mega menu is drawn while hovered and only once a category is picked. */
  predicate MegaMenuShown(open: bool, selected: Option<string>) {
    open && StrTruthy(selected)
  }

  function HasId(e: EnhancedService): bool {
    e.service.id != ""
  }

  /** The menu list of a section: services without an `_id` are skipped, the rest keep their order. */
  function MenuEntries(services: seq<EnhancedService>): (r: seq<EnhancedService>)
    ensures |r| <= |services|
    ensures forall e :: e in r <==> e in services && e.service.id != ""
  {
    Seqs.FilterMembers(services, HasId);
    Seqs.Filter(services, HasId)
  }

  /** The skipped services leave the rest in order: a concatenation is listed part by part. */
  lemma MenuEntriesKeepOrder(a: seq<EnhancedService>, b: seq<EnhancedService>, e: EnhancedService)
    ensures MenuEntries(a + b) == MenuEntries(a) + MenuEntries(b)
    ensures MenuEntries([e]) == if e.service.id != "" then [e] else []
  {
    Seqs.FilterAppend(a, b, HasId);
    Seqs.FilterSnoc([], e, HasId);
    assert [] + [e] == [e];
  }

  /**
   * Picking a category the welcome modal offered makes the menu show exactly
   * the fetched services of that category, in fetch order.
   */
  lemma PickedCategoryShowsItsServices(services: seq<EnhancedService>, k: string)
    requires WelcomeModal(Categories(services), None).Some?
    requires k in WelcomeModal(Categories(services), None).value
    ensures FilteredCategories(Categories(services), Some(k))
            == [Section(k, Some(Seqs.Filter(services, Seqs.KeyIs(MenuKey, k))))]
  {
    var gs := Categories(services);
    assert k in Seqs.Keys(gs);
    var r := Seqs.Lookup(gs, k);
    var i :| 0 <= i < |gs| && gs[i].key == k && gs[i].members == r.value;
    NoEmptyGroupName(services);
    assert StrTruthy(Some(k));
    Seqs.GroupByMembers(services, MenuKey);
  }
}
