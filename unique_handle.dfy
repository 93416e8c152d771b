/** KennyKerr::unique_handle: an owner of one raw handle that closes it
    through its traits class when it is replaced or destroyed.

    The traits class is an object here: `invalid` is `Traits::Invalid()`, and
    `closed` logs every `Traits::Close` call in order. Because `Close`
    requires a value other than the sentinel, every call site is checked
    never to close the invalid handle. The handle type `H` is abstract; the
    six comparison operators take the ordering on raw handles as a
    parameter. */
module UniqueHandle {

  class Traits<H(==)> {
    const invalid: H
    var closed: seq<H>

    constructor (invalid: H)
      ensures this.invalid == invalid && closed == []
    {
      this.invalid := invalid;
      closed := [];
    }

    /** Traits::Close: releases the operating-system resource. */
    method Close(v: H)
      requires v != invalid
      modifies this
      ensures closed == old(closed) + [v]
    {
      closed := closed + [v];
    }
  }

  class Handle<H(==)> {
    const traits: Traits<H>
    var value: H

    /** explicit unique_handle(pointer value): adopts `value`, closes nothing. */
    constructor (t: Traits<H>, v: H)
      ensures traits == t && value == v
      ensures t.closed == old(t.closed)
    {
      traits := t;
      value := v;
    }

    /** unique_handle() with the default argument: starts empty. */
    constructor Empty(t: Traits<H>)
      ensures traits == t && value == t.invalid
      ensures t.closed == old(t.closed)
    {
      traits := t;
      value := t.invalid;
    }

    /** The move constructor: takes the other's handle through release(),
        so the other is left empty and nothing is closed. */
    constructor Move(other: Handle<H>)
      modifies other
      ensures traits == other.traits
      ensures value == old(other.value) && other.value == traits.invalid
      ensures traits.closed == old(other.traits.closed)
    {
      traits := other.traits;
      value := other.traits.invalid;
      new;
      value := other.Release();
    }

    /** explicit operator bool. */
    function IsValid(): (b: bool)
      reads this
      ensures b <==> value != traits.invalid
    {
      value != traits.invalid
    }

    /** get(): the held handle; nothing changes. */
    method Get() returns (v: H)
      ensures v == value
    {
      v := value;
    }

    /** get_address_of(): hands out the address of the held handle so that
        a C API can write a new handle straight into it; the write is the
        argument `written`. The source asserts that nothing is owned at that
        point, so no owned handle is overwritten. */
    method GetAddressOf(written: H)
      requires !IsValid()
      modifies this
      ensures value == written
    {
      value := written;
    }

    /** release(): gives up ownership without closing. */
    method Release() returns (v: H)
      modifies this
      ensures v == old(value) && value == traits.invalid
    {
      v := value;
      value := traits.invalid;
    }

    /** The private Close(): calls Traits::Close only for a valid handle. */
    method Close()
      modifies traits
      ensures traits.closed == old(traits.closed) + (if IsValid() then [value] else [])
    {
      if IsValid() {
        traits.Close(value);
      }
    }

    /** reset(value): a different value first closes the held handle (when
        valid) and is then adopted; the same value changes nothing. The
        result is the validity afterwards. */
    method Reset(v: H) returns (ok: bool)
      modifies this, traits
      ensures value == v
      ensures traits.closed ==
        old(traits.closed) + (if old(value) != v && old(value) != traits.invalid then [old(value)] else [])
      ensures ok <==> v != traits.invalid
    {
      if value != v {
        Close();
        value := v;
      }
      ok := IsValid();
    }

    /** The destructor: closes the held handle when valid. */
    method Destroy()
      modifies traits
      ensures traits.closed == old(traits.closed) + (if IsValid() then [value] else [])
    {
      Close();
    }

    /** Move assignment: `reset(other.release())` unless `other` is this very
        handle, in which case nothing happens. */
    method MoveAssign(other: Handle<H>)
      requires other.traits == traits
      modifies this, other, traits
      ensures other == this ==> value == old(value) && traits.closed == old(traits.closed)
      ensures other != this ==>
        && value == old(other.value)
        && other.value == traits.invalid
        && traits.closed == old(traits.closed) +
             (if old(value) != old(other.value) && old(value) != traits.invalid then [old(value)] else [])
    {
      if other != this {
        var v := other.Release();
        var _ := Reset(v);
      }
    }

    /** Member swap: exchanges the two held handles and closes nothing. */
    method Swap(other: Handle<H>)
      modifies this, other
      ensures value == old(other.value) && other.value == old(value)
    {
      var tmp := value;
      value := other.value;
      other.value := tmp;
    }
  }

  /** The non-member swap delegates to the member. */
  method SwapHandles<H(==)>(left: Handle<H>, right: Handle<H>)
    modifies left, right
    ensures left.value == old(right.value) && right.value == old(left.value)
  {
    left.Swap(right);
  }

  /** `less`, the ordering on raw handles, is a strict total order. */
  ghost predicate StrictTotal<H(!new)>(less: (H, H) -> bool) {
    && (forall x :: !less(x, x))
    && (forall x, y :: x != y ==> less(x, y) || less(y, x))
    && (forall x, y :: less(x, y) ==> !less(y, x))
  }

  /** The six comparison operators compare get() values; `less` is the
      ordering on raw handles. operator==: a handle equals itself, and two
      handles of one traits type that compare equal are both valid or both
      invalid. */
  predicate Eq<H(==)>(left: Handle<H>, right: Handle<H>)
    reads left, right
    ensures left == right ==> Eq(left, right)
    ensures Eq(left, right) && left.traits.invalid == right.traits.invalid ==>
      (left.IsValid() <==> right.IsValid())
  {
    left.value == right.value
  }

  /** operator!= is the complement of operator==. */
  predicate Ne<H(==)>(left: Handle<H>, right: Handle<H>)
    reads left, right
    ensures Ne(left, right) <==> !Eq(left, right)
  {
    left.value != right.value
  }

  /** operator<: over an irreflexive order a handle is never less than one
      it equals. */
  predicate Lt<H(==,!new)>(left: Handle<H>, right: Handle<H>, less: (H, H) -> bool)
    reads left, right
    ensures (forall x :: !less(x, x)) ==> (Lt(left, right, less) ==> !Eq(left, right))
  {
    less(left.value, right.value)
  }

  /** operator>=: over a strict total order, greater or equal. */
  predicate Ge<H(==,!new)>(left: Handle<H>, right: Handle<H>, less: (H, H) -> bool)
    reads left, right
    ensures StrictTotal(less) ==> (Ge(left, right, less) <==> Gt(left, right, less) || Eq(left, right))
  {
    !less(left.value, right.value)
  }

  /** operator>: the mirror image of operator<. */
  predicate Gt<H(==,!new)>(left: Handle<H>, right: Handle<H>, less: (H, H) -> bool)
    reads left, right
    ensures Gt(left, right, less) <==> Lt(right, left, less)
  {
    less(right.value, left.value)
  }

  /** operator<=: over a strict total order, less or equal. */
  predicate Le<H(==,!new)>(left: Handle<H>, right: Handle<H>, less: (H, H) -> bool)
    reads left, right
    ensures StrictTotal(less) ==> (Le(left, right, less) <==> Lt(left, right, less) || Eq(left, right))
  {
    !less(right.value, left.value)
  }

  /** Over a strict total order on raw handles the operators agree with one
      another: each negated operator is the complement of its partner, and
      exactly one of <, == and > holds. */
  lemma ComparisonsAgree<H(!new)>(left: Handle<H>, right: Handle<H>, less: (H, H) -> bool)
    requires forall x :: !less(x, x)
    requires forall x, y :: x != y ==> less(x, y) || less(y, x)
    requires forall x, y :: less(x, y) ==> !less(y, x)
    ensures Ne(left, right) <==> !Eq(left, right)
    ensures Ge(left, right, less) <==> Gt(left, right, less) || Eq(left, right)
    ensures Le(left, right, less) <==> Lt(left, right, less) || Eq(left, right)
    ensures Lt(left, right, less) <==> Gt(right, left, less)
    ensures Eq(left, right) ==> !Lt(left, right, less) && !Gt(left, right, less)
    ensures !Eq(left, right) ==> Lt(left, right, less) != Gt(left, right, less)
  {
  }

  /** A handle that owns `v` is reset to a fresh handle and then destroyed:
      `v` is closed at the reset and the fresh handle at destruction, each
      exactly once, and the sentinel never. */
  method ReplaceThenDestroy<H(==)>(invalid: H, v: H, w: H) returns (closed: seq<H>)
    requires v != invalid && w != invalid && v != w
    ensures closed == [v, w]
  {
    var t := new Traits(invalid);
    var h := new Handle(t, v);
    var ok := h.Reset(w);
    h.Destroy();
    closed := t.closed;
  }

  /** Moving a handle into a new one and destroying both closes the handle
      once: the moved-from one is empty. */
  method MoveThenDestroyBoth<H(==)>(invalid: H, v: H) returns (closed: seq<H>)
    requires v != invalid
    ensures closed == [v]
  {
    var t := new Traits(invalid);
    var a := new Handle(t, v);
    var b := new Handle.Move(a);
    a.Destroy();
    b.Destroy();
    closed := t.closed;
  }

  /** Move-assigning into an owning handle closes what it held; the source
      is left empty, so destroying both closes the moved handle once. */
  method MoveAssignThenDestroyBoth<H(==)>(invalid: H, v: H, w: H) returns (closed: seq<H>)
    requires v != invalid && w != invalid && v != w
    ensures closed == [v, w]
  {
    var t := new Traits(invalid);
    var a := new Handle(t, v);
    var b := new Handle(t, w);
    a.MoveAssign(b);
    b.Destroy();
    a.Destroy();
    closed := t.closed;
  }

  /** Swapping two owning handles and destroying both closes each handle
      once, in the order the destructors run. */
  method SwapThenDestroyBoth<H(==)>(invalid: H, v: H, w: H) returns (closed: seq<H>)
    requires v != invalid && w != invalid
    ensures closed == [w, v]
  {
    var t := new Traits(invalid);
    var a := new Handle(t, v);
    var b := new Handle(t, w);
    SwapHandles(a, b);
    a.Destroy();
    b.Destroy();
    closed := t.closed;
  }

  /** A handle filled through get_address_of is owned like any other:
      releasing it hands it out unclosed. */
  method FillThenRelease<H(==)>(invalid: H, v: H) returns (got: H, closed: seq<H>)
    ensures got == v && closed == []
  {
    var t := new Traits(invalid);
    var h := new Handle.Empty(t);
    h.GetAddressOf(v);
    got := h.Release();
    h.Destroy();
    closed := t.closed;
  }
}
