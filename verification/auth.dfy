/** The login route over the detector. */
module Auth {
  import opened FailureCounters
  import opened AbuseDetection
  import opened LoginProtocol

  datatype LoginResult = Forbidden | Unauthorized | Token

  class AuthRouter {
    const detector: AbuseDetector
    const limits: Limits

    constructor (detector: AbuseDetector, limits: Limits)
      ensures this.detector == detector && this.limits == limits
    {
      this.detector, this.limits := detector, limits;
    }

    /** One login with nothing in between: the protocol's two steps in a row. */
    method Login(ip: string, username: string, credentialsValid: bool) returns (result: LoginResult)
      modifies detector.redis`failedAuth
      ensures var alone := RunFrom(State(old(detector.redis.failedAuth), map[], []),
                                   [Arrive(0, LoginProtocol.Login(ip, username), detector.redis.clock),
                                    Finish(0, credentialsValid, detector.redis.clock)], limits);
              && detector.redis.failedAuth == alone.counters
              && (result == Unauthorized <==> alone.recorded == [Failure(ip, username, detector.redis.clock)])
      ensures result == Forbidden <==>
              Check(old(detector.redis.failedAuth), ip, username, detector.redis.clock, limits.ip, limits.user)
              != NotStuffing
      ensures var m, now := old(detector.redis.failedAuth), detector.redis.clock;
              var passed := Count(m, ip, now) < limits.ip && Count(m, username, now) < limits.user;
              && (result == Token <==> passed && credentialsValid)
              && (result == Unauthorized <==> passed && !credentialsValid)
              && (result == Forbidden <==> !passed)
              && (result != Unauthorized ==> detector.redis.failedAuth == m)
              && (result == Unauthorized ==>
                   detector.redis.failedAuth == Record(m, Failure(ip, username, now), limits.window))
    {
      ghost var s := State(detector.redis.failedAuth, map[], []);
      ghost var arrive := Arrive(0, LoginProtocol.Login(ip, username), detector.redis.clock);
      ghost var finish := Finish(0, credentialsValid, detector.redis.clock);
      assert [arrive, finish][..1] == [arrive] && [arrive][..0] == [];
      assert RunFrom(s, [arrive], limits) == Step(s, arrive, limits);
      assert RunFrom(s, [arrive, finish], limits) == Step(Step(s, arrive, limits), finish, limits);
      var stuffing := detector.IsCredentialStuffing(ip, username, limits.ip, limits.user);
      if stuffing != NotStuffing {
        return Forbidden;
      }
      if !credentialsValid {
        detector.RecordAuthFailure(ip, username, limits.window);
        return Unauthorized;
      }
      return Token;
    }
  }
}
