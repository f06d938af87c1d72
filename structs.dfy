/** The `Rectangle` and `User` structs of structs/src/main.rs with the
    functions over them: `area`, `can_hold`, `square`, `area1` and
    `build_user`. Field widths follow the source (`u32`, `u64`); a `u32`
    product that would overflow panics, so the area requires it fits. */
module Structs {

  import opened Ints

  datatype Rectangle = Rectangle(width: U32, height: U32) {

    /** The `u32` product `width * height` does not overflow. */
    predicate AreaFits() {
      width * height < U32_LIMIT
    }

    /** `area`: the number of unit squares the rectangle covers, none
        exactly when a side is zero. */
    function Area(): (a: U32)
      requires AreaFits()
      ensures a == width * height
      ensures a == 0 <==> width == 0 || height == 0
    {
      assert 0 <= width * height;
      width * height
    }

    /** `can_hold`: strictly wider and strictly taller, so a rectangle that
        holds another has no zero side. */
    predicate CanHold(other: Rectangle): (holds: bool)
      ensures holds <==> width > other.width && height > other.height
      ensures holds ==> width > 0 && height > 0
    {
      width > other.width && height > other.height
    }

    /** `Rectangle::square`. */
    static function Square(size: U32): (r: Rectangle)
      ensures r.width == size && r.height == size
      ensures r.AreaFits() <==> size * size < U32_LIMIT
    {
      Rectangle(size, size)
    }
  }

  /** `area1`: the free function computes what the method does. */
  function Area1(rectangle: Rectangle): (a: U32)
    requires rectangle.AreaFits()
    ensures a == rectangle.Area()
  {
    rectangle.width * rectangle.height
  }

  /** A rectangle that can hold another has the strictly larger area. */
  lemma CanHoldLargerArea(outer: Rectangle, inner: Rectangle)
    requires outer.AreaFits() && outer.CanHold(inner)
    ensures inner.AreaFits() && inner.Area() < outer.Area()
  {
    var ow, oh, iw, ih := outer.width as int, outer.height as int, inner.width as int, inner.height as int;
    assert iw * ih <= iw * oh by {
      assert iw * (oh - ih) >= 0;
    }
    assert iw * oh < ow * oh by {
      assert (ow - iw) * oh > 0;
    }
  }

  /** `can_hold` is a strict order: no rectangle holds itself, two never
      hold each other, and holding is transitive. */
  lemma CanHoldStrictOrder(a: Rectangle, b: Rectangle, c: Rectangle)
    ensures !a.CanHold(a)
    ensures a.CanHold(b) ==> !b.CanHold(a)
    ensures a.CanHold(b) && b.CanHold(c) ==> a.CanHold(c)
  {
  }

  /** A square of side `size` has area `size * size`, and of two squares the
      larger side holds the smaller. */
  lemma SquareLaws(small: U32, large: U32)
    requires large * large < U32_LIMIT
    ensures Rectangle.Square(large).Area() == large * large
    ensures Rectangle.Square(large).CanHold(Rectangle.Square(small)) <==> small < large
  {
  }

  datatype User = User(active: bool, username: string, email: string, signInCount: U64)

  /** `build_user`: an active user with one sign-in, holding the given
      e-mail address and user name (note the argument order). */
  function BuildUser(email: string, username: string): (user: User)
    ensures user.active && user.signInCount == 1
    ensures user.email == email && user.username == username
  {
    User(true, username, email, 1)
  }

  /** Distinct arguments give distinct users. */
  lemma BuildUserInjective(e1: string, u1: string, e2: string, u2: string)
    ensures BuildUser(e1, u1) == BuildUser(e2, u2) <==> e1 == e2 && u1 == u2
  {
  }
}
