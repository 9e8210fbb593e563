/**
 * The event creation page: the agenda and tag editors, lists of input
 * boxes held in component state, and what `handleSubmit` sends and does with
 * the route's answer.
 */
module CreateEventPage {
  import opened Wrappers
  import opened Seqs
  import opened Text
  import opened Errors
  import opened EventModel
  import opened EventsRoute

  /** `items.filter((_, i) => i !== index)`. */
  function DropIndex(items: seq<string>, index: int): seq<string> {
    if items == [] then []
    else (if index == 0 then [] else [items[0]]) + DropIndex(items[1..], index - 1)
  }

  /** Dropping an index takes out exactly that element and keeps the others in order; an index out of range drops nothing. */
  lemma {:induction false} DropIndexSpec(items: seq<string>, index: int)
    ensures DropIndex(items, index) == if 0 <= index < |items| then items[..index] + items[index + 1..] else items
  {
    if items != [] {
      DropIndexSpec(items[1..], index - 1);
      if index > 0 && index < |items| {
        assert items[..index] == [items[0]] + items[1..][..index - 1];
        assert items[index + 1..] == items[1..][index..];
      } else if index == 0 {
        assert items[1..] == items[..0] + items[1..];
      } else {
        assert items == [items[0]] + items[1..];
      }
    }
  }

  /** The submit-time test: `item.trim() !== ""`. */
  predicate Filled(item: string) {
    |Trim(item)| != 0
  }

  /** An entry worth sending: not blank. */
  predicate NotBlank(item: string) {
    !Blank(item)
  }

  /** The state of the page's two list editors. */
  class EventEditor {
    var agendaItems: seq<string>
    var tags: seq<string>

    /** There is always at least one input box in each list. */
    ghost predicate Valid()
      reads this
    {
      |agendaItems| >= 1 && |tags| >= 1
    }

    constructor ()
      ensures agendaItems == [""] && tags == [""]
      ensures Valid()
    {
      agendaItems := [""];
      tags := [""];
    }

    /** `addAgendaItem`: one more, empty, box at the end. */
    method AddAgendaItem()
      requires Valid()
      modifies this
      ensures Valid()
      ensures agendaItems == old(agendaItems) + [""] && tags == old(tags)
    {
      agendaItems := agendaItems + [""];
    }

    /** `removeAgendaItem(index)`: only while there is more than one box. */
    method RemoveAgendaItem(index: int)
      requires Valid()
      modifies this
      ensures Valid()
      ensures agendaItems == if |old(agendaItems)| > 1 then DropIndex(old(agendaItems), index) else old(agendaItems)
      ensures tags == old(tags)
    {
      if |agendaItems| > 1 {
        DropIndexSpec(agendaItems, index);
        agendaItems := DropIndex(agendaItems, index);
      }
    }

    /** `updateAgendaItem(index, value)`: a copy with one slot overwritten. */
    method UpdateAgendaItem(index: nat, value: string)
      requires Valid()
      requires index < |agendaItems|
      modifies this
      ensures Valid()
      ensures |agendaItems| == |old(agendaItems)| && agendaItems[index] == value
      ensures forall i :: 0 <= i < |agendaItems| && i != index ==> agendaItems[i] == old(agendaItems)[i]
      ensures tags == old(tags)
    {
      var updated := agendaItems;
      updated := updated[index := value];
      agendaItems := updated;
    }

    /** `addTag`. */
    method AddTag()
      requires Valid()
      modifies this
      ensures Valid()
      ensures tags == old(tags) + [""] && agendaItems == old(agendaItems)
    {
      tags := tags + [""];
    }

    /** `removeTag(index)`. */
    method RemoveTag(index: int)
      requires Valid()
      modifies this
      ensures Valid()
      ensures tags == if |old(tags)| > 1 then DropIndex(old(tags), index) else old(tags)
      ensures agendaItems == old(agendaItems)
    {
      if |tags| > 1 {
        DropIndexSpec(tags, index);
        tags := DropIndex(tags, index);
      }
    }

    /** `updateTag(index, value)`. */
    method UpdateTag(index: nat, value: string)
      requires Valid()
      requires index < |tags|
      modifies this
      ensures Valid()
      ensures |tags| == |old(tags)| && tags[index] == value
      ensures forall i :: 0 <= i < |tags| && i != index ==> tags[i] == old(tags)[i]
      ensures agendaItems == old(agendaItems)
    {
      var updated := tags;
      updated := updated[index := value];
      tags := updated;
    }

    /** The `agenda` and `tags` lists `handleSubmit` appends to the form: the non-blank entries, in order. */
    method SubmittedLists() returns (agenda: seq<string>, tagsList: seq<string>)
      ensures agenda == Filter(agendaItems, NotBlank)
      ensures tagsList == Filter(tags, NotBlank)
    {
      agenda := Filter(agendaItems, Filled);
      tagsList := Filter(tags, Filled);
      FilledIsNotBlank();
      FilterSame(agendaItems, Filled, NotBlank);
      FilterSame(tags, Filled, NotBlank);
    }
  }

  lemma FilledIsNotBlank()
    ensures forall item :: Filled(item) == NotBlank(item)
  {
    forall item ensures Filled(item) == NotBlank(item) {
      BlankTest(item);
    }
  }

  /** What is sent is a subsequence of the boxes, and holds exactly their non-blank entries. */
  lemma SubmittedEntries(items: seq<string>)
    ensures IsSubsequence(Filter(items, NotBlank), items)
    ensures forall x :: x in Filter(items, NotBlank) <==> x in items && !Blank(x)
  {
    FilterIsSubsequence(items, NotBlank);
    FilterMembers(items, NotBlank);
  }

  /** The list as `JSON.parse(JSON.stringify(list))` gives it back to the route. */
  function AsJson(items: seq<string>): (r: seq<Json>)
    ensures |r| == |items|
  {
    if items == [] then [] else [JString(items[0])] + AsJson(items[1..])
  }

  /** The route's filter keeps every entry the page sends: filtering at submit time leaves it nothing to drop. */
  lemma {:induction false} RouteKeepsSubmitted(items: seq<string>)
    requires forall i :: 0 <= i < |items| ==> !Blank(items[i])
    ensures KeepEntries(AsJson(items)) == Some(items)
  {
    if items != [] {
      var json := AsJson(items);
      assert json[0] == JString(items[0]) && json[1..] == AsJson(items[1..]);
      BlankTest(items[0]);
      RouteKeepsSubmitted(items[1..]);
      assert items == [items[0]] + items[1..];
    }
  }

  /** The lists the page sends pass the route's list checks exactly when each editor has a non-blank entry. */
  lemma SubmittedListsAccepted(items: seq<string>)
    ensures var sent := Filter(items, NotBlank);
      && KeepEntries(AsJson(sent)) == Some(sent)
      && (|sent| > 0 <==> exists i :: 0 <= i < |items| && !Blank(items[i]))
  {
    var sent := Filter(items, NotBlank);
    RouteKeepsSubmitted(sent);
    FilterMembers(items, NotBlank);
    if exists i :: 0 <= i < |items| && !Blank(items[i]) {
      var i :| 0 <= i < |items| && !Blank(items[i]);
      assert items[i] in sent;
    }
  }

  /** What `handleSubmit` does once the request is answered. */
  datatype SubmitReaction = Navigate(path: string) | ShowError(message: string)

  /**
   * A 2xx answer navigates to the new event's page; any other answer, or a
   * failed `fetch`, shows an error message.
   */
  function ReactTo(response: Result<PostOutcome, Exception>): (r: SubmitReaction)
    ensures r.Navigate? <==> response.Ok? && response.value.Created?
    ensures r.Navigate? ==> r.path == "/event/" + response.value.event.slug
    ensures response.Ok? && !response.value.Created? ==> r == ShowError(ResponseMessage(response.value))
    ensures response.Err? ==> r == ShowError(CatchMessage(response.error, "An error occurred"))
  {
    match response
    case Err(e) => ShowError(CatchMessage(e, "An error occurred"))
    case Ok(o) =>
      if !(200 <= Status(o) < 300) then
        var m := ResponseMessage(o);
        ShowError(if |m| > 0 then m else "Failed to create event")
      else Navigate("/event/" + o.event.slug)
  }
}
