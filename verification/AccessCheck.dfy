/**
 * Ordered access-control evaluation (kernel/executive/security/access_check.c).
 *
 * An access mask is modelled as the set of its bit positions: the source only ever combines masks
 * with `&`, `|`, `~` and a comparison with zero, which are intersection, union, difference and
 * emptiness.
 */
module AccessCheck {
  import opened Status

  type Mask = set<nat>

  /** ZI_ACCESS_FULL_CONTROL is 0xff. */
  const FULL_CONTROL: Mask := {0, 1, 2, 3, 4, 5, 6, 7}

  const AUTHORITY_SYSTEM := 1
  const AUTHORITY_GROUP := 2
  const AUTHORITY_SERVICE := 4
  const MAXIMUM_ACES := 64
  const MAXIMUM_TOKEN_GROUPS := 16
  /** Bit positions of the inheritance flags. */
  const INHERIT_ONLY := 2
  const INHERIT_SUPPORTED: set<nat> := {0, 1, 2, 3}
  const ACE_DENY := 0
  const ACE_ALLOW := 1

  datatype SecurityId = SecurityId(authority: nat, value: nat)

  /** `shapeOk` stands for the struct_size and version comparisons. */
  datatype Token = Token(shapeOk: bool, user: SecurityId, groups: seq<SecurityId>)
  datatype Ace = Ace(kind: nat, inheritance: set<nat>, reserved: nat, mask: Mask, trustee: SecurityId)
  datatype Acl = Acl(shapeOk: bool, entries: seq<Ace>)
  datatype Descriptor =
    Descriptor(shapeOk: bool, owner: SecurityId, primaryGroup: SecurityId, control: nat, dacl: Option<Acl>)

  predicate IdValid(id: SecurityId) {
    id.value != 0 && AUTHORITY_SYSTEM <= id.authority <= AUTHORITY_SERVICE
  }

  predicate TokenValid(token: Token) {
    && token.shapeOk
    && IdValid(token.user)
    && token.user.authority != AUTHORITY_GROUP
    && |token.groups| <= MAXIMUM_TOKEN_GROUPS
    && (forall i :: 0 <= i < |token.groups| ==>
          IdValid(token.groups[i]) && token.groups[i].authority == AUTHORITY_GROUP)
    && (forall i, j :: 0 <= j < i < |token.groups| ==> token.groups[j] != token.groups[i])
  }

  predicate AceValid(ace: Ace) {
    && (ace.kind == ACE_DENY || ace.kind == ACE_ALLOW)
    && ace.reserved == 0
    && ace.inheritance <= INHERIT_SUPPORTED
    && ace.mask != {}
    && ace.mask <= FULL_CONTROL
    && IdValid(ace.trustee)
  }

  predicate DescriptorValid(d: Descriptor) {
    && d.shapeOk
    && IdValid(d.owner)
    && IdValid(d.primaryGroup)
    && d.control == 0
    && (d.dacl.Some? ==>
          && d.dacl.value.shapeOk
          && |d.dacl.value.entries| <= MAXIMUM_ACES
          && forall i :: 0 <= i < |d.dacl.value.entries| ==> AceValid(d.dacl.value.entries[i]))
  }

  predicate TokenContains(token: Token, id: SecurityId) {
    token.user == id || id in token.groups
  }

  /** An entry takes part in the decision about one access bit. */
  predicate Rules(ace: Ace, token: Token, bit: nat) {
    INHERIT_ONLY !in ace.inheritance && TokenContains(token, ace.trustee) && bit in ace.mask
  }

  datatype Ruling = Silent | Allow | Deny

  /** The per-bit rule: the first entry that rules on a bit decides it. */
  function FirstRuling(aces: seq<Ace>, token: Token, bit: nat): Ruling {
    if aces == [] then Silent
    else if Rules(aces[0], token, bit) then (if aces[0].kind == ACE_ALLOW then Allow else Deny)
    else FirstRuling(aces[1..], token, bit)
  }

  /** The arguments zi_security_access_check accepts. */
  predicate ArgumentsValid(d: Option<Descriptor>, token: Option<Token>, requested: Mask) {
    && d.Some?
    && requested <= FULL_CONTROL
    && DescriptorValid(d.value)
    && token.Some?
    && TokenValid(token.value)
  }

  function DaclEntries(d: Descriptor): seq<Ace> {
    if d.dacl.Some? then d.dacl.value.entries else []
  }

  /** Every requested bit is decided by an allow entry. */
  predicate Permits(d: Descriptor, token: Token, requested: Mask) {
    forall bit :: bit in requested ==> FirstRuling(DaclEntries(d), token, bit) == Allow
  }

  predicate Denies(d: Descriptor, token: Token, requested: Mask) {
    exists bit :: bit in requested && FirstRuling(DaclEntries(d), token, bit) == Deny
  }

  lemma {:induction false} RulingAppend(aces: seq<Ace>, next: Ace, token: Token, bit: nat)
    ensures FirstRuling(aces + [next], token, bit) ==
            if FirstRuling(aces, token, bit) != Silent then FirstRuling(aces, token, bit)
            else if Rules(next, token, bit) then (if next.kind == ACE_ALLOW then Allow else Deny)
            else Silent
  {
    if aces == [] {
      assert (aces + [next])[0] == next && (aces + [next])[1..] == [];
    } else {
      assert (aces + [next])[1..] == aces[1..] + [next];
      RulingAppend(aces[1..], next, token, bit);
    }
  }

  /** A ruling made by a prefix of the list stands for the whole list. */
  lemma {:induction false} RulingStands(aces: seq<Ace>, k: nat, token: Token, bit: nat)
    requires k <= |aces|
    requires FirstRuling(aces[..k], token, bit) != Silent
    ensures FirstRuling(aces, token, bit) == FirstRuling(aces[..k], token, bit)
    decreases |aces| - k
  {
    if k == |aces| {
      assert aces[..k] == aces;
    } else {
      assert aces[..k + 1] == aces[..k] + [aces[k]];
      RulingAppend(aces[..k], aces[k], token, bit);
      RulingStands(aces, k + 1, token, bit);
    }
  }

  /** An identity: a value, and one of the four authorities, of which the second is that of groups. */
  ghost predicate Identity(id: SecurityId, group: bool) {
    id.value > 0 && (if group then id.authority == 2 else id.authority in {1, 3, 4})
  }

  /** A token is for somebody who is no group, and lists at most sixteen different groups. */
  lemma TokensAre(token: Token)
    ensures TokenValid(token) <==>
      && token.shapeOk && Identity(token.user, false) && |token.groups| <= 16
      && (forall i :: 0 <= i < |token.groups| ==> Identity(token.groups[i], true))
      && forall i, j :: 0 <= i < |token.groups| && 0 <= j < |token.groups| && token.groups[i] == token.groups[j] ==> i == j
  {
  }

  /** An entry allows or denies some of the eight bits to somebody. */
  lemma EntriesAre(ace: Ace)
    ensures AceValid(ace) <==>
      && ace.kind <= 1 && ace.reserved == 0 && (forall flag :: flag in ace.inheritance ==> flag <= 3)
      && (exists bit :: bit in ace.mask) && (forall bit :: bit in ace.mask ==> bit <= 7)
      && (Identity(ace.trustee, false) || Identity(ace.trustee, true))
  {
    assert ace.mask != {} <==> exists bit :: bit in ace.mask;
  }

  /** An entry is about what it controls itself, for the token's user or one of its groups, and about the bit. */
  ghost predicate Concerns(ace: Ace, token: Token, bit: nat) {
    && 2 !in ace.inheritance && bit in ace.mask
    && (ace.trustee == token.user || exists g :: 0 <= g < |token.groups| && token.groups[g] == ace.trustee)
  }

  /** The k-th entry is the first that concerns a bit, and is of a kind. */
  ghost predicate Decides(aces: seq<Ace>, token: Token, bit: nat, k: nat, kind: nat) {
    && k < |aces| && Concerns(aces[k], token, bit) && aces[k].kind == kind
    && forall j :: 0 <= j < k ==> !Concerns(aces[j], token, bit)
  }

  /** A bit is allowed if and only if the first entry that concerns it is an allow entry. */
  lemma {:induction false} RulingExactly(aces: seq<Ace>, token: Token, bit: nat)
    ensures FirstRuling(aces, token, bit) == Allow <==> exists k: nat :: Decides(aces, token, bit, k, 1)
    ensures FirstRuling(aces, token, bit) == Silent <==> forall j :: 0 <= j < |aces| ==> !Concerns(aces[j], token, bit)
    decreases |aces|
  {
    if aces != [] {
      var rest := aces[1..];
      RulingExactly(rest, token, bit);
      assert forall j :: 0 < j < |aces| ==> aces[j] == rest[j - 1];
      if Concerns(aces[0], token, bit) {
        assert aces[0].kind == 1 ==> Decides(aces, token, bit, 0, 1);
      } else {
        if k: nat :| Decides(rest, token, bit, k, 1) {
          assert Decides(aces, token, bit, k + 1, 1);
        }
        if k: nat :| Decides(aces, token, bit, k, 1) {
          assert Decides(rest, token, bit, k - 1, 1);
        }
      }
    }
  }

  /** zi_security_access_check. A NULL descriptor or token is None. */
  method Check(d: Option<Descriptor>, token: Option<Token>, requested: Mask)
    returns (status: Status, granted: Mask)
    ensures status == InvalidArgument <==> !ArgumentsValid(d, token, requested)
    ensures status.Success? <==>
            ArgumentsValid(d, token, requested) && Permits(d.value, token.value, requested)
    ensures status.Success? ==> granted == requested
    ensures status in {Success, AccessDenied, InvalidArgument}
    ensures status.AccessDenied? ==>
              granted == if Denies(d.value, token.value, requested) then {}
                         else set bit | bit in requested && FirstRuling(DaclEntries(d.value), token.value, bit) == Allow
  {
    granted := {};
    if !ArgumentsValid(d, token, requested) {
      return InvalidArgument, {};
    }
    if requested == {} {
      return Success, {};
    }
    var aces := DaclEntries(d.value);
    if aces == [] {
      var bit :| bit in requested;
      assert FirstRuling(aces, token.value, bit) == Silent;
      return AccessDenied, {};
    }
    var remaining := requested;
    var index := 0;
    while index < |aces|
      invariant 0 <= index <= |aces|
      invariant remaining != {}
      invariant granted + remaining == requested && granted !! remaining
      invariant forall bit :: bit in granted ==> FirstRuling(aces[..index], token.value, bit) == Allow
      invariant forall bit :: bit in remaining ==> FirstRuling(aces[..index], token.value, bit) == Silent
    {
      var entry := aces[index];
      assert aces[..index + 1] == aces[..index] + [entry];
      forall bit ensures FirstRuling(aces[..index + 1], token.value, bit) ==
            if FirstRuling(aces[..index], token.value, bit) != Silent then FirstRuling(aces[..index], token.value, bit)
            else if Rules(entry, token.value, bit) then (if entry.kind == ACE_ALLOW then Allow else Deny)
            else Silent
      {
        RulingAppend(aces[..index], entry, token.value, bit);
      }
      if INHERIT_ONLY in entry.inheritance || !TokenContains(token.value, entry.trustee) {
        index := index + 1;
        continue;
      }
      var relevant := entry.mask * remaining;
      if relevant == {} {
        assert forall bit :: bit in remaining ==> bit !in relevant;
        index := index + 1;
        continue;
      }
      if entry.kind == ACE_DENY {
        var bit :| bit in relevant;
        RulingStands(aces, index + 1, token.value, bit);
        return AccessDenied, {};
      }
      granted := granted + relevant;
      remaining := remaining - relevant;
      index := index + 1;
      if remaining == {} {
        forall bit | bit in requested ensures FirstRuling(aces, token.value, bit) == Allow {
          RulingStands(aces, index, token.value, bit);
        }
        return Success, granted;
      }
    }
    assert aces[..index] == aces;
    var bit :| bit in remaining;
    return AccessDenied, granted;
  }

  /**
   * The value form of the check, used where an access check is one part of a larger step: the
   * granted mask, or None when the check does not succeed.
   */
  function Grant(d: Option<Descriptor>, token: Token, requested: Mask): (granted: Option<Mask>)
    ensures granted.Some? ==> granted.value == requested
  {
    if ArgumentsValid(d, Some(token), requested) && Permits(d.value, token, requested)
    then Some(requested) else None
  }

  /** Inserting a deny entry anywhere in a list never turns a refusal of a bit into a grant. */
  lemma {:induction false} DenyNeverWidens(before: seq<Ace>, deny: Ace, after: seq<Ace>, token: Token, bit: nat)
    requires deny.kind == ACE_DENY
    requires FirstRuling(before + [deny] + after, token, bit) == Allow
    ensures FirstRuling(before + after, token, bit) == Allow
    decreases |before|
  {
    var list := before + [deny] + after;
    if before == [] {
      assert list[1..] == after == before + after;
    } else {
      assert list[0] == before[0] == (before + after)[0];
      assert list[1..] == before[1..] + [deny] + after && (before + after)[1..] == before[1..] + after;
      if !Rules(before[0], token, bit) {
        DenyNeverWidens(before[1..], deny, after, token, bit);
      }
    }
  }
}
