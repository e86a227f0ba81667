/**
 * A client of the store's contracts: the seeded users log in, alice submits
 * an order, bob tries to read it, and the background task runs to the end.
 */
module Scenarios {
  import opened Lifecycle
  import opened Domain
  import opened Auth
  import opened OrderService

  /**
   * alice's "Widget" order is created PENDING with id 1, stays PENDING until
   * the task queue runs, and ends COMPLETED. bob logs in, but the token he is
   * issued does not resolve (401); his bare username does, and then the order
   * is not found (404). A second startup leaves the users table as it was.
   */
  method WidgetScenario(verify: Verifier, aliceHash: string, bobHash: string, alicePrefix: string, bobPrefix: string)
    returns (aliceLogin: Result<TokenResponse>, bobLogin: Result<TokenResponse>, created: Result<Order>,
             bobView: Result<Order>, forgedBobView: Result<Order>, earlyView: Result<Order>, finalView: Result<Order>)
    requires verify("wonderland", aliceHash) && verify("builder", bobHash)
    requires ValidTokenPrefix(alicePrefix) && ValidTokenPrefix(bobPrefix)
    ensures aliceLogin == Ok(TokenResponse(alicePrefix + "alice", "bearer"))
    ensures bobLogin == Ok(TokenResponse(bobPrefix + "bob", "bearer"))
    ensures created == Ok(Order(1, "Widget", 3, PENDING, 1))
    ensures bobView == Err(Unauthorized)
    ensures forgedBobView == Err(NotFound)
    ensures earlyView == created
    ensures finalView == Ok(Order(1, "Widget", 3, COMPLETED, 1))
  {
    var db := new Database();
    db.Startup(aliceHash, bobHash);
    db.Startup(aliceHash, bobHash);
    var alice, bob := db.users[0], db.users[1];
    assert alice == User(1, "alice", aliceHash) && bob == User(2, "bob", bobHash);

    LoginOutcome(db.users, verify, alicePrefix, "alice", "wonderland");
    LoginOutcome(db.users, verify, bobPrefix, "bob", "builder");
    aliceLogin := Login(db.users, verify, alicePrefix, "alice", "wonderland");
    bobLogin := Login(db.users, verify, bobPrefix, "bob", "builder");
    var aliceToken, bobToken := aliceLogin.value.accessToken, bobLogin.value.accessToken;

    IssuedTokenResolvesToOwnerIff(db.users, alicePrefix, alice);
    created := db.SubmitOrder(aliceToken, "Widget", 3);

    SeededBobTokenRefused(db.users, bobPrefix);
    bobView := db.GetOrder(bobToken, 1);
    BareShortUsernameResolves(db.users, bob);
    forgedBobView := db.GetOrder("bob", 1);
    earlyView := db.GetOrder(aliceToken, 1);

    db.DrainTasks();
    finalView := db.GetOrder(aliceToken, 1);
  }
}
