/** The DynamoDB table both handlers share: one linkage per username, read by
    the webhook handler and written by the OAuth callback. */
module CredentialStore {
  import opened Wrappers

  /** The stored OAuth bundle: the fields the callback copies out of the
      flow's credentials. */
  datatype Credentials = Credentials(
    refreshToken: string,
    tokenUri: string,
    scopes: seq<string>,
    clientId: string,
    clientSecret: string)

  /** A table item: `{username, calendar_id, credentials}`. */
  datatype Linkage = Linkage(username: string, calendarId: string, credentials: Credentials)

  /** Every item sits under its own username, the table's partition key. */
  ghost predicate Keyed(items: map<string, Linkage>) {
    forall u :: u in items ==> items[u].username == u
  }

  function Get(items: map<string, Linkage>, username: string): (r: Option<Linkage>)
    ensures r.Some? <==> username in items
    ensures r.Some? ==> r.value == items[username]
  {
    if username in items then Some(items[username]) else None
  }

  class Table {
    var items: map<string, Linkage>
    /** The usernames `get_item` has been asked for, in order. */
    ghost var lookups: seq<string>

    ghost predicate Valid()
      reads this
    {
      Keyed(items)
    }

    constructor (initial: map<string, Linkage>)
      requires Keyed(initial)
      ensures Valid() && items == initial && lookups == []
    {
      items := initial;
      lookups := [];
    }

    /** `table.get_item(Key={"username": username}).get("Item")`. */
    method GetItem(username: string) returns (item: Option<Linkage>)
      requires Valid()
      modifies this`lookups
      ensures Valid()
      ensures item == Get(items, username)
      ensures item.Some? ==> item.value.username == username
      ensures lookups == old(lookups) + [username]
    {
      item := Get(items, username);
      lookups := lookups + [username];
    }

    /** `table.put_item(Item=...)`: an unconditional upsert that replaces any
        item under the same username and leaves every other item alone. */
    method PutItem(item: Linkage)
      requires Valid()
      modifies this`items
      ensures Valid()
      ensures items == old(items)[item.username := item]
      ensures Get(items, item.username) == Some(item)
      ensures forall u :: u != item.username ==> Get(items, u) == Get(old(items), u)
    {
      items := items[item.username := item];
    }
  }
}
