// Whole-array operations of std::array.
module Arrays {
  import opened Types

  ghost predicate Apart(s: set<object>, t: set<object>) { s !! t }

  method Copy<T>(source: array<T>, target: array<T>)
    requires source.Length == target.Length && source != target
    modifies target
    ensures target[..] == source[..]
  {
    forall i | 0 <= i < target.Length {
      target[i] := source[i];
    }
  }

  method Fill<T>(target: array<T>, x: T)
    modifies target
    ensures target[..] == Repeat(target.Length, x)
  {
    forall i | 0 <= i < target.Length {
      target[i] := x;
    }
  }
}
