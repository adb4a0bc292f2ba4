/** Repositories/ProductRepository.cs: single-row CRUD on the `products` table. */
module ProductRepository {
  import opened Wrappers
  import opened Models
  import opened Tables

  class ProductRepository {
    const db: Database

    constructor (db: Database)
      ensures this.db == db
    {
      this.db := db;
    }

    /** `SELECT * FROM products`: every row exactly once, in ascending id order. */
    method GetAllAsync() returns (r: seq<Product>)
      requires db.Valid()
      ensures forall p :: p in r <==> p in db.products.Values
      ensures forall i, j :: 0 <= i < j < |r| ==> r[i].id < r[j].id
    {
      var table := db.products;
      var ids := IdsBelow(table, db.nextProductId);
      r := seq(|ids|, i requires 0 <= i < |ids| => table[ids[i]]);
      forall p | p in table.Values
        ensures p in r
      {
        var k :| k in table && table[k] == p;
        assert r[IndexOf(ids, k)] == p;
      }
    }

    /** `SELECT * FROM products WHERE id = @Id`: the row, or null. */
    method GetByIdAsync(id: int) returns (r: Option<Product>)
      requires db.Valid()
      ensures r.None? <==> id !in db.products
      ensures r.Some? ==> r.value == db.products[id] && r.value.id == id
    {
      if id in db.products {
        r := Some(db.products[id]);
      } else {
        r := None;
      }
    }

    /** `INSERT INTO products ... RETURNING id`: one new row under a fresh id holding the
        given sku, name, description, price and stock quantity; `product.Id` is not read. */
    method CreateAsync(product: Product) returns (id: int)
      requires db.Valid()
      modifies db
      ensures db.Valid()
      ensures id == old(db.nextProductId) && id >= 1 && id !in old(db.products)
      ensures db.products == old(db.products)[id := product.(id := id)]
      ensures db.nextProductId == id + 1
      ensures db.orders == old(db.orders) && db.orderItems == old(db.orderItems)
      ensures db.nextOrderId == old(db.nextOrderId) && db.nextItemId == old(db.nextItemId) && db.now == old(db.now)
    {
      id := db.nextProductId;
      db.products := db.products[id := product.(id := id)];
      db.nextProductId := id + 1;
    }

    /** `UPDATE products SET sku, name, description, price, stock_quantity WHERE id = @Id`. */
    method UpdateAsync(product: Product) returns (updated: bool)
      requires db.Valid()
      modifies db`products
      ensures db.Valid()
      ensures updated <==> product.id in old(db.products)
      ensures db.products == if updated then old(db.products)[product.id := product] else old(db.products)
    {
      updated := product.id in db.products;
      if updated {
        db.products := db.products[product.id := product];
      }
    }

    /** `DELETE FROM products WHERE id = @Id`; item rows that refer to it stay. */
    method DeleteAsync(id: int) returns (deleted: bool)
      requires db.Valid()
      modifies db`products
      ensures db.Valid()
      ensures deleted <==> id in old(db.products)
      ensures db.products == old(db.products) - {id}
    {
      deleted := id in db.products;
      db.products := db.products - {id};
    }
  }
}
