/** The phone-number repair pass (`fix_numbers.py`): every stored number lacking the
    "whatsapp:" prefix gets it, and the pass counts how many numbers it changed. */
module FixNumbers {
  import opened Text
  import opened Models
  import opened Repairs

  /** The per-user step: only the number may change, and only by gaining the prefix. */
  function FixUser(u: User): (r: User)
    ensures r.phone == NormalizePhone(u.phone)
    ensures r.(phone := u.phone) == u
    ensures r == u <==> StartsWith(u.phone, PhonePrefix)
  {
    u.(phone := NormalizePhone(u.phone))
  }

  /** `fix_numbers`: every user repaired in order, and the number of modified numbers. */
  function FixPass(users: seq<User>): (r: (seq<User>, nat))
    ensures |r.0| == |users|
    ensures forall i :: 0 <= i < |users| ==> StartsWith(r.0[i].phone, PhonePrefix)
    ensures forall i :: 0 <= i < |users| ==> r.0[i].(phone := users[i].phone) == users[i]
    ensures forall i :: 0 <= i < |users| ==> (r.0[i] == users[i] <==> StartsWith(users[i].phone, PhonePrefix))
    ensures r.1 == Differences(users, r.0)
    ensures r.1 == 0 <==> forall i :: 0 <= i < |users| ==> StartsWith(users[i].phone, PhonePrefix)
  {
    var r := Pass(FixUser, users);
    assert r.1 == 0 <==> r.0 == users;
    r
  }

  /** A second pass modifies nothing. */
  lemma FixPassIdle(users: seq<User>)
    ensures FixPass(FixPass(users).0) == (FixPass(users).0, 0)
  {
    forall i | 0 <= i < |users| ensures FixUser(FixUser(users[i])) == FixUser(users[i]) {
      NormalizePhoneIdempotent(users[i].phone);
    }
    Repairs.SecondPassIdle(FixUser, users);
  }
}
