/** The two worklists of `WorkList.h`: elements waiting in the list are unique,
    so pushing one that is already waiting does nothing. */
module WorkLists {
  import opened Sequences

  /** Pushed at the back, popped from the back. */
  class FILOWorkList<Data(==)> {
    var data_list: seq<Data>
    var data_set: set<Data>

    constructor ()
      ensures Valid() && data_list == []
    {
      data_list, data_set := [], {};
    }

    ghost predicate Valid()
      reads this
    {
      && Distinct(data_list)
      && (forall x | x in data_set :: x in data_list)
      && (forall x | x in data_list :: x in data_set)
    }

    predicate Empty()
      reads this
    {
      data_list == []
    }

    method Push(data: Data) returns (added: bool)
      requires Valid()
      modifies this
      ensures Valid() && added == (data !in old(data_list))
      ensures data_list == if added then old(data_list) + [data] else old(data_list)
    {
      added := data !in data_set;
      if added {
        data_list := data_list + [data];
        data_set := data_set + {data};
      }
    }

    method Pop() returns (data: Data)
      requires Valid() && !Empty()
      modifies this
      ensures Valid() && old(data_list) == data_list + [data]
    {
      data := data_list[|data_list| - 1];
      data_list := data_list[..|data_list| - 1];
      data_set := data_set - {data};
      assert old(data_list) == data_list + [data];
    }
  }

  /** Pushed at the back, popped from the front. */
  class FIFOWorkList<Data(==)> {
    var data_list: seq<Data>
    var data_set: set<Data>

    constructor ()
      ensures Valid() && data_list == []
    {
      data_list, data_set := [], {};
    }

    ghost predicate Valid()
      reads this
    {
      && Distinct(data_list)
      && (forall x | x in data_set :: x in data_list)
      && (forall x | x in data_list :: x in data_set)
    }

    predicate Empty()
      reads this
    {
      data_list == []
    }

    method Push(data: Data) returns (added: bool)
      requires Valid()
      modifies this
      ensures Valid() && added == (data !in old(data_list))
      ensures data_list == if added then old(data_list) + [data] else old(data_list)
    {
      added := data !in data_set;
      if added {
        data_list := data_list + [data];
        data_set := data_set + {data};
      }
    }

    method Pop() returns (data: Data)
      requires Valid() && !Empty()
      modifies this
      ensures Valid() && old(data_list) == [data] + data_list && data !in data_list
    {
      data := data_list[0];
      data_list := data_list[1..];
      data_set := data_set - {data};
      assert old(data_list) == [data] + data_list;
    }
  }
}
