/** The bot's in-memory table of the stop each user has chosen, and what an
    incoming text message does to it. */
module Bot {
  import opened Wrappers
  import opened StationUrl

  /** One entry of `user_stations`: the stop code, its name if one was given,
      and when it was saved (`datetime.now()`, passed in as seconds). */
  datatype UserStation = UserStation(stationCode: string, stationName: Option<string>, lastUpdated: int)

  /** `IETTBot` as far as its state goes: the token and the HTTP session are
      not part of this model, and the per-user table is the `userStations` map. */
  class IETTBot {
    var userStations: map<int, UserStation>

    /** A new bot knows no user's stop. */
    constructor ()
      ensures userStations == map[]
    {
      userStations := map[];
    }

    /** `save_user_station(user_id, station_code, station_name)`: the user's
        entry is replaced, every other user's entry is kept. */
    method SaveUserStation(userId: int, stationCode: string, stationName: Option<string>, now: int)
      modifies this
      ensures userStations == old(userStations)[userId := UserStation(stationCode, stationName, now)]
      ensures userId in userStations && userStations[userId] == UserStation(stationCode, stationName, now)
      ensures forall u :: u != userId ==> (u in userStations <==> u in old(userStations))
      ensures forall u :: u != userId && u in userStations ==> userStations[u] == old(userStations)[u]
    {
      userStations := userStations[userId := UserStation(stationCode, stationName, now)];
    }

    /** `get_user_station(user_id)`: the saved entry, or None for an unknown user. */
    method GetUserStation(userId: int) returns (r: Option<UserStation>)
      ensures r.None? <==> userId !in userStations
      ensures r.Some? ==> r.value == userStations[userId]
    {
      if userId in userStations {
        r := Some(userStations[userId]);
      } else {
        r := None;
      }
    }

    /** The body of the `/sil` command: the entry is removed when there is one;
        `deleted` tells which of the two replies is sent. */
    method DeleteUserStation(userId: int) returns (deleted: bool)
      modifies this
      ensures deleted <==> userId in old(userStations)
      ensures userStations == old(userStations) - {userId}
      ensures !deleted ==> userStations == old(userStations)
    {
      if userId in userStations {
        userStations := userStations - {userId};
        deleted := true;
      } else {
        deleted := false;
      }
    }

    /** `handle_message` without the Telegram replies: the text is classified,
        and a stop found in it is saved for the user, with the name from the
        URL in the URL branch and no name for a bare code. */
    method HandleMessage(userId: int, text: string, now: int) returns (reply: Reply)
      modifies this
      ensures reply == ClassifyMessage(text)
      ensures SavedStation(reply).Some? ==>
                var (code, name) := SavedStation(reply).value;
                userStations == old(userStations)[userId := UserStation(code, name, now)]
      ensures SavedStation(reply).None? ==> userStations == old(userStations)
      ensures reply.CodeSaved? ==> userStations[userId] == UserStation(text, None, now)
    {
      reply := ClassifyMessage(text);
      var saved := SavedStation(reply);
      if saved.Some? {
        var (code, name) := saved.value;
        SaveUserStation(userId, code, name, now);
      }
    }
  }
}
