/**
 * The random selection service over a fixed list of servers, which also
 * records the index it chose (src/select_server_service/:
 * random_select_server_service.rs, select_server_service_error.rs).
 */
module SelectServerService {
  import opened Wrappers
  import SelectServer

  datatype SelectServerServiceError = NoOneIsAlive | PoisonedRead

  datatype SelectServerServiceResponse = SelectServerServiceResponse(server: string)

  class RandomSelectServerService {
    const targetServers: seq<string>
    var currentServerIndex: nat

    /** The recorded index is 0 before any success and a valid index after one. */
    ghost predicate Valid()
      reads this
    {
      currentServerIndex == 0 || currentServerIndex < |targetServers|
    }

    constructor (targetServers: seq<string>)
      ensures Valid()
      ensures this.targetServers == targetServers && currentServerIndex == 0
    {
      this.targetServers := targetServers;
      currentServerIndex := 0;
    }

    /**
     * An empty list gives NoOneIsAlive and records nothing; otherwise the
     * drawn index is recorded and the server at it returned.
     */
    method Execute(draw: nat -> nat) returns (r: Result<SelectServerServiceResponse, SelectServerServiceError>)
      requires Valid() && SelectServer.DrawsInRange(draw)
      modifies this
      ensures Valid()
      ensures targetServers == [] ==>
        r == Err(NoOneIsAlive) && currentServerIndex == old(currentServerIndex)
      ensures targetServers != [] ==>
        && currentServerIndex == draw(|targetServers|)
        && currentServerIndex < |targetServers|
        && r == Ok(SelectServerServiceResponse(targetServers[currentServerIndex]))
    {
      if targetServers == [] {
        return Err(NoOneIsAlive);
      }
      var randomIndex := draw(|targetServers|);
      currentServerIndex := randomIndex;
      r := Ok(SelectServerServiceResponse(targetServers[randomIndex]));
    }
  }
}
