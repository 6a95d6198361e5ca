/** `poll_folder_once` of `app/imap_poller.py` as one uninterrupted method over its rows. */
module ImapPollers {
  import opened Options
  import opened ImapFetch
  import opened ImapCursors
  import opened ImapRuns

  class Poller {
    var folder: Folder
    var used: map<nat, nat>

    constructor (server: Server)
      ensures folder == Folder(server, None, map[], map[]) && used == map[]
    {
      folder := Folder(server, None, map[], map[]);
      used := map[];
    }

    /** Two commits a message. */
    method IngestBatch(validity: nat, messages: seq<Message>)
      requires folder.cursor.Some?
      modifies this
      ensures folder.cursor.Some? && folder == Consumed(old(folder), validity, messages) && used == old(used)
    {
      for count := 0 to |messages|
        invariant folder.cursor.Some? && used == old(used)
        invariant Consumed(old(folder), validity, messages) == Consumed(folder, validity, messages[count..])
      {
        var uid := messages[count].uid;
        assert messages[count..][0].uid == uid && messages[count..][1..] == messages[count + 1..];
        folder := Ingested(folder, validity, uid);
        var cursor := folder.cursor.value;
        var last := if cursor.last >= uid then cursor.last else uid;
        cursor := cursor.(last := last);
        if !cursor.complete && last >= cursor.cutoff {
          cursor := cursor.(complete := true);
        }
        folder := folder.(cursor := Some(cursor));
      }
      assert messages[|messages|..] == [];
    }

    method PollFolderOnce(day: nat, limits: Limits, opening: Opening, listed: Option<seq<nat>>, network: Network)
      returns (count: nat, fetch: Option<Fetch>)
      modifies this
      ensures fetch == None <==> On(old(used), day) >= limits.daily
      ensures fetch == None || fetch.value.Failed? ==> folder == old(folder) && used == old(used) && count == 0
      ensures fetch.Some? && fetch.value.Fetched? ==> count == |fetch.value.messages|
      ensures fetch.Some? && fetch.value.Fetched? ==>
        used == Recorded(old(used), day, fetch.value.messages)
        && folder == PolledFolder(old(folder), fetch.value.validity, fetch.value.highest, fetch.value.messages)
      ensures fetch.Some? && fetch.value.Fetched? ==>
        WithinBudget(fetch.value.messages, limits.daily - On(old(used), day))
    {
      hide Arrived, Stopped, Breaks, WithinBudget, Total, Consumed, Above, HighestUid;
      count := 0;
      var usedBytes := On(used, day);
      var remaining := if limits.daily >= usedBytes then limits.daily - usedBytes else 0;
      if remaining == 0 {
        return 0, None;
      }
      var fetched, downloaded := FetchAfter(LastUid(folder.cursor), Expected(folder.cursor), opening, listed,
                                            limits.batch, remaining, network);
      fetch := Some(fetched);
      if fetched.Failed? {
        return;
      }
      var messages := fetched.messages;
      if downloaded > 0 {
        used := used[day := On(used, day) + downloaded];
      }
      if folder.cursor == None || folder.cursor.value.validity != fetched.validity {
        folder := Positioned(folder, fetched.validity, fetched.highest);
      }
      IngestBatch(fetched.validity, messages);
      count := |messages|;
      if !folder.cursor.value.complete && folder.cursor.value.last >= folder.cursor.value.cutoff {
        folder := folder.(cursor := Some(folder.cursor.value.(complete := true)));
      }
    }
  }
}
