/** `shoppingCartReducer(state, action)`: the Redux reducer of the shopping cart. It never
    changes its input; each action yields a new state. */
module CartReducer {
  import Seqs

  /** A product, as the product list and the cart show it (`id`, `name`, `price`). */
  datatype Product = Product(id: int, name: string, price: int)

  /** The store's state: the product list and the cart. */
  datatype State = State(products: seq<Product>, cart: seq<Product>)

  /** An action as the components dispatch it: `{ type, payload }`. */
  datatype Action = Action(kind: string, payload: Product)

  const AddToCart: string := "ADD_TO_CART"
  const RemoveFromCart: string := "REMOVE_FROM_CART"

  /** The test `item.id !== action.payload.id`. */
  function KeepsItem(id: int): Product -> bool {
    (item: Product) => item.id != id
  }

  function Reduce(state: State, action: Action): State {
    if action.kind == AddToCart then state.(cart := state.cart + [action.payload])
    else if action.kind == RemoveFromCart then state.(cart := Seqs.Filter(state.cart, KeepsItem(action.payload.id)))
    else state
  }

  /** ADD_TO_CART appends the payload: one more item, the payload is last, earlier items stay. */
  lemma AddAppends(state: State, p: Product)
    ensures var r := Reduce(state, Action(AddToCart, p));
            && |r.cart| == |state.cart| + 1
            && r.cart[|r.cart| - 1] == p
            && r.cart[..|state.cart|] == state.cart
            && r.products == state.products
  {
    var r := Reduce(state, Action(AddToCart, p));
    assert r.cart[..|state.cart|] == state.cart;
  }

  /** REMOVE_FROM_CART drops every item with the payload's id, duplicates included, keeps every
      other item with its multiplicity and in its original order, and leaves the products. */
  lemma RemoveDropsId(state: State, p: Product)
    ensures var r := Reduce(state, Action(RemoveFromCart, p));
            && (forall i :: 0 <= i < |r.cart| ==> r.cart[i].id != p.id)
            && (forall x: Product :: x.id != p.id ==> multiset(r.cart)[x] == multiset(state.cart)[x])
            && Seqs.IsSubsequence(r.cart, state.cart)
            && r.products == state.products
  {
    var keep := KeepsItem(p.id);
    Seqs.FilterSatisfies(state.cart, keep);
    Seqs.FilterIsSubsequence(state.cart, keep);
    forall x: Product | x.id != p.id
      ensures multiset(Seqs.Filter(state.cart, keep))[x] == multiset(state.cart)[x]
    {
      Seqs.FilterCount(state.cart, keep, x);
    }
  }

  /** Removing an id that no cart item has leaves the cart equal; conversely a cart left equal
      had no item with that id. */
  lemma RemoveAbsentIsNoOp(state: State, p: Product)
    ensures Reduce(state, Action(RemoveFromCart, p)) == state
            <==> forall i :: 0 <= i < |state.cart| ==> state.cart[i].id != p.id
  {
    Seqs.FilterKeepsAll(state.cart, KeepsItem(p.id));
  }

  /** Any other action type returns the same state. */
  lemma UnknownActionIsIdentity(state: State, action: Action)
    requires action.kind != AddToCart && action.kind != RemoveFromCart
    ensures Reduce(state, action) == state
  {
  }

  /** Adding a product whose id is not in the cart and then removing it restores the state. */
  lemma AddThenRemoveRestores(state: State, p: Product)
    requires forall i :: 0 <= i < |state.cart| ==> state.cart[i].id != p.id
    ensures Reduce(Reduce(state, Action(AddToCart, p)), Action(RemoveFromCart, p)) == state
  {
    var keep := KeepsItem(p.id);
    Seqs.FilterSnoc(state.cart, p, keep);
    Seqs.FilterKeepsAll(state.cart, keep);
  }
}
